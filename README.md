# MediScript core, modelled in Dafny

MediScript is a small web application. It sends a photographed medical
document to a Gemini model. It shows the extracted record on a card and
builds a care-plan prompt from it. This project models the parts with
logic in them:

- **The extracted-data card** (`components/ExtractedDataCard.tsx`):
  - `formatKey` turns a snake_case or camelCase key into a Title Case heading;
  - `renderValue` decides how each JSON value is shown: placeholder, list,
    inline "Key: value; ..." text, nested view, 是/否, long block or short span;
  - the top-level filter drops the internal `fileB64` and `mimeType` entries.
- **The prompt** (`components/PromptGenerator.tsx`): fixed header lines, one
  line per present field, fixed requirement lines, with missing parts
  filtered out and the rest joined by newlines.
- **The two app components** (`App.tsx` and `src/App.tsx`). Each holds four
  state variables (`status`, `extractedData`, `errorMsg`, `apiKey`) that its
  handlers update in place. They are modelled as classes. Each handler
  method is proved against a step function on an `AppState` value.
  `handleFileSelect` is split at its `await` into a begin step and a finish
  step. The extraction's outcome is an input.
- **The extraction service's observable contract**
  (`services/geminiService.ts`): which error the caller sees.

Files:

- `Wrappers.dfy`: `Option` and `Result`.
- `Text.dfy`: the JavaScript string operations used:
  - `trim` with ECMAScript's whitespace set;
  - `split` on one character;
  - `join`;
  - ASCII case mapping;
  - `String(n)` for integers.
- `KeyFormat.dfy`: `formatKey`.
- `ExtractedDataCard.dfy`: JSON values, `JSON.stringify`, `renderValue`, the card.
- `Types.dfy`: `ExtractedMedicalData` and `AppStatus`.
- `PromptGenerator.dfy`: `generatePromptText` and a field-by-field description of it.
- `GeminiService.dfy`: `extractMedicalData` over an abstract model reply.
- `AppCore.dfy`: the state record and the settle and reset steps both apps share.
- `MainApp.dfy`: `App.tsx`.
- `SrcApp.dfy`: `src/App.tsx`.

Each app also gets a trace model. Events are offered only when the page
offers the matching control:

- typing the key;
- selecting a file while the upload box is enabled;
- the model's reply arriving while PROCESSING;
- the reset buttons.

Lemmas prove the invariants every reachable state keeps.

## Model

| member | source | states |
|---|---|---|
| Text.TrimSlice | components/ExtractedDataCard.tsx:96 | `trim` returns a slice of its input. Only whitespace lies outside the slice, and the slice neither starts nor ends with whitespace. |
| Text.TrimStartSuffix | components/ExtractedDataCard.tsx:96 | The leading-whitespace pass keeps a suffix of the string. Everything it drops is whitespace, and what it keeps does not start with whitespace. |
| Text.TrimEndPrefix | components/ExtractedDataCard.tsx:96 | The trailing-whitespace pass keeps a prefix of the string. Everything it drops is whitespace, and what it keeps does not end with whitespace. |
| Text.TrimKeepsAbsent | components/ExtractedDataCard.tsx:96 | `trim` adds no character: a character absent from the input is absent from the result. |
| Text.TrimEmptyIffBlank | App.tsx:16 | `!key.trim()` holds exactly when every character of the key is whitespace. |
| Text.SplitPiecesLackSeparator | components/ExtractedDataCard.tsx:97 | No piece of `split(' ')` contains a space. |
| Text.JoinSplit | components/ExtractedDataCard.tsx:97-99 | Joining the pieces of a split with the same separator gives back the string. |
| Text.LowerAll | components/ExtractedDataCard.tsx:98 | `toLowerCase` keeps the length and lower-cases each character. |
| Text.CaseFoldsAgree | components/ExtractedDataCard.tsx:98 | Lower-casing after upper-casing is plain lower-casing, and lower-casing is idempotent. |
| Text.IntToString | components/ExtractedDataCard.tsx:77 | `String(n)` is non-empty and starts with '-' exactly for negative `n`. |
| Text.ParseNatToString | components/ExtractedDataCard.tsx:77 | The decimal text of a natural number reads back as that number. |
| Text.ParseIntToString | components/ExtractedDataCard.tsx:77 | `String(n)` is an optional '-' followed by digits, and it reads back as `n` for every integer, negative ones included. |
| KeyFormat.ReplaceUnderscores | components/ExtractedDataCard.tsx:94 | No '_' is left, and the length is kept. |
| KeyFormat.FoldReplaceUnderscores | components/ExtractedDataCard.tsx:94 | Up to separators and letter case, the text is unchanged: only underscores are turned into spaces. |
| KeyFormat.CapsReplaceUnderscores | components/ExtractedDataCard.tsx:94 | The capitals are kept, in order. |
| KeyFormat.CapsSpaceBeforeUpper | components/ExtractedDataCard.tsx:95 | Putting a space before each capital keeps the capitals, in order. |
| KeyFormat.CapsTrim | components/ExtractedDataCard.tsx:96 | `trim` keeps the capitals, in order. |
| KeyFormat.NormalizeKeepsCapitals | components/ExtractedDataCard.tsx:94-96 | The normalised text has exactly the key's capitals, in the same order. |
| KeyFormat.SpaceBeforeUpperCapitals | components/ExtractedDataCard.tsx:95 | Every capital of the result directly follows a space. |
| KeyFormat.SpaceBeforeUpperKeepsAbsent | components/ExtractedDataCard.tsx:95 | The step adds only spaces, so any other character absent from the input, such as '_', is absent from the result. |
| KeyFormat.TitleCaseAt | components/ExtractedDataCard.tsx:97-99 | split/capitalise/join keeps the length and every space. It upper-cases the first character of each word and lower-cases the others. |
| KeyFormat.NormalizeNoUnderscore | components/ExtractedDataCard.tsx:94-96 | After the two replaces and `trim`, the text has no '_'. |
| KeyFormat.NormalizeTrimmed | components/ExtractedDataCard.tsx:94-96 | After the two replaces and `trim`, the text has no whitespace at either end. |
| KeyFormat.NormalizeCapitalsStartWords | components/ExtractedDataCard.tsx:94-96 | After the two replaces and `trim`, every capital is at the start of the text or right after a space. |
| KeyFormat.TitleCaseNoUnderscore | components/ExtractedDataCard.tsx:97-99 | split/capitalise/join adds no '_'. |
| KeyFormat.TitleCaseTrimmed | components/ExtractedDataCard.tsx:97-99 | A text with no whitespace at either end still has none after split/capitalise/join. |
| KeyFormat.TitleCaseLetterCase | components/ExtractedDataCard.tsx:97-99 | After split/capitalise/join, a letter is upper case exactly when it starts a word. |
| KeyFormat.TitleCaseKeepsWordCapitals | components/ExtractedDataCard.tsx:97-99 | When every capital of the text starts a word, split/capitalise/join keeps the length, and each of those capitals stays in place and still starts a word. |
| KeyFormat.FormatKeyNoUnderscore | components/ExtractedDataCard.tsx:94 | The heading contains no '_'. |
| KeyFormat.FormatKeyTrimmed | components/ExtractedDataCard.tsx:96-99 | The heading neither starts nor ends with whitespace. |
| KeyFormat.FormatKeyLetterCase | components/ExtractedDataCard.tsx:95-98 | A letter of the heading is upper case exactly when it starts a word. |
| KeyFormat.FormatKeyCapitalStartsWord | components/ExtractedDataCard.tsx:94-98 | Every capital of the key reaches the normalised text, in order. In the heading, each of those capitals keeps its place and case and begins a word. |
| KeyFormat.FormatKeyKeepsContent | components/ExtractedDataCard.tsx:93-99 | The heading has the key's letters and other characters in order. Only separators and letter case change. |
| KeyFormat.FormatKeyCamelCase | components/ExtractedDataCard.tsx:95-99 | A lower-case word followed by a capital and lower-case letters becomes two capitalised words separated by one space. |
| KeyFormat.FormatKeySnakeCase | components/ExtractedDataCard.tsx:94-99 | Two lower-case words joined by '_' become two capitalised words. |
| KeyFormat.FormatKeyOneWord | components/ExtractedDataCard.tsx:98 | A single lower-case word is capitalised. |
| KeyFormat.FormatKeyDiagnosis | components/ExtractedDataCard.tsx:91-100 | `formatKey("diagnosis")` is "Diagnosis". |
| KeyFormat.FormatKeyPatientName | components/ExtractedDataCard.tsx:91-100 | `formatKey("patientName")` is "Patient Name". |
| KeyFormat.FormatKeyMedicalHistory | components/ExtractedDataCard.tsx:91-100 | `formatKey("medical_history")` is "Medical History". |
| ExtractedDataCard.RenderNotProvidedIff | components/ExtractedDataCard.tsx:11-13 | The 未提供 placeholder is shown exactly for null, undefined and "". |
| ExtractedDataCard.RenderFalseAndZero | components/ExtractedDataCard.tsx:68-88 | `false` renders 否 and `0` renders "0". Neither renders the placeholder. |
| ExtractedDataCard.RenderEmptyContainers | components/ExtractedDataCard.tsx:16-36 | An empty array and an empty object both render 無資料. |
| ExtractedDataCard.RenderArray | components/ExtractedDataCard.tsx:16-28 | A non-empty array renders one list item per element, in order, each one level deeper. |
| ExtractedDataCard.RenderObject | components/ExtractedDataCard.tsx:38-64 | A non-empty object is inline exactly when depth > 0 and it has at most 3 entries. Inline, the text is the entries joined by "; ". Otherwise it is a nested view, indented exactly below the top level, with one (formatted key, value one level deeper) per entry. |
| ExtractedDataCard.RenderTopLevelObject | components/ExtractedDataCard.tsx:39-64 | A depth-0 object always gets the unindented nested view. |
| ExtractedDataCard.InlineTextStartsWithFirstKey | components/ExtractedDataCard.tsx:40-46 | The inline text begins with the first entry's formatted key and ": ". |
| ExtractedDataCard.RenderScalar | components/ExtractedDataCard.tsx:76-88 | A number or non-empty string shows its own text. It is a block exactly when longer than 100 characters. |
| ExtractedDataCard.RenderWellFormed | components/ExtractedDataCard.tsx:9-89 | Every rendered tree has these properties: lists and nested views are non-empty; inline text is non-empty and only below the top level; nested views are indented exactly below it; long text is over 100 characters and short text is 1 to 100. |
| ExtractedDataCard.EscapeNoControl | components/ExtractedDataCard.tsx:43 | Strings written by `JSON.stringify` contain no raw control character. |
| ExtractedDataCard.EscapePlain | components/ExtractedDataCard.tsx:43 | Text without quotes, backslashes or control characters is written unchanged. |
| ExtractedDataCard.VisibleEntries | components/ExtractedDataCard.tsx:103-105 | The kept entries are exactly the entries whose key is neither `fileB64` nor `mimeType`. |
| ExtractedDataCard.VisibleEntriesAppend | components/ExtractedDataCard.tsx:103-105 | The filter keeps the order of the entries. |
| ExtractedDataCard.RenderCardShape | components/ExtractedDataCard.tsx:107-131 | Only the "no info" message is shown exactly when every entry is internal. Otherwise there is one section per kept entry, in order, with the formatted key and the value rendered at depth 0. |
| PromptGenerator.FilterBoolean | components/PromptGenerator.tsx:41 | `filter(Boolean)` keeps exactly the non-null, non-empty parts. |
| PromptGenerator.FilterBooleanAppend | components/PromptGenerator.tsx:41 | The filter keeps the order of the parts. |
| PromptGenerator.FieldSlotsByField | components/PromptGenerator.tsx:20-29 | The i-th field entry is non-null exactly when the i-th field is present. A string field is present when it is non-empty. A list field is present when it exists with length > 0. The entry is then that field's line. Medications, procedures and history are joined by ", " and lab results by "; ". |
| PromptGenerator.PromptLines | components/PromptGenerator.tsx:14-41 | The prompt's lines are the four header lines, then the present fields' lines in the fixed order, then the eight footer lines. No null survives. |
| PromptGenerator.PresentFieldShown | components/PromptGenerator.tsx:20-29 | A present field's line is among the prompt's lines. |
| PromptGenerator.PromptLineCount | components/PromptGenerator.tsx:14-41 | The prompt has 12 fixed lines plus one per present field. |
| PromptGenerator.PromptTextLayout | components/PromptGenerator.tsx:41 | The text is the joined header, a newline, the joined field lines and a newline when there are any, and the joined footer. |
| PromptGenerator.NoFieldsPrompt | components/PromptGenerator.tsx:14-41 | With no field present the text is exactly the 12 fixed lines joined. |
| PromptGenerator.RawTextSummaryIgnored | components/PromptGenerator.tsx:14-41 | `rawTextSummary` never affects the prompt. |
| GeminiService.ExtractionOutcome | services/geminiService.ts:8-50 | Data returns exactly for a non-empty key and a parsed reply. An empty key gives the missing-key error. Every other failure gives the generic error, so "No data returned" never escapes. |
| AppCore.ErrorText | App.tsx:32 | `err.message \|\| fallback` is the message when non-empty, else the fallback. It is never empty when the fallback is not. |
| AppCore.FinishFromProcessing | App.tsx:26-34 | From PROCESSING, success gives COMPLETE with the record. Failure gives ERROR with the message or the fallback, and no data. The key is kept and the result is consistent. |
| AppCore.ResetClears | App.tsx:37-41 | Reset gives IDLE with no data and no message, keeping the key. |
| MainApp.BeginOutcome | App.tsx:15-27 | A blank key gives ERROR with the key request, no call, and unchanged data and key. Otherwise the state is PROCESSING with data and message cleared, and the call receives the untrimmed key. |
| MainApp.BlankKeyPassesGate | App.tsx:89-90 | A key of spaces enables the upload box, but the handler refuses it without calling the extraction. |
| MainApp.FileSelectWithService | App.tsx:15-35 | With a usable key, the handler ends in COMPLETE with the parsed record, or in ERROR with the service's generic message. |
| MainApp.BeginConsistent | App.tsx:15-24 | Selecting a file from IDLE or ERROR keeps the state consistent. |
| MainApp.StepInv | App.tsx:10-41 | Every offered event keeps the invariant: consistency, the error message being the key request or the generic message, and a non-empty key while PROCESSING. |
| MainApp.RunInv | App.tsx:10-41 | Any offered sequence of events keeps the invariant. |
| MainApp.ReachableInv | App.tsx:10-41 | In every reachable state, COMPLETE is exactly the status with data and ERROR exactly the status with a message. That message is the key request or the generic message; the fallback text is never shown. |
| MainApp.OneViewAtATime | App.tsx:63-121 | In a consistent state the page shows exactly one of upload panel, progress and results. The results show exactly in COMPLETE. |
| MainApp.App.constructor | App.tsx:10-13 | IDLE, no data, no message, empty key. |
| MainApp.App.SetApiKey | App.tsx:78 | Only the key changes. |
| MainApp.App.BeginFileSelect | App.tsx:15-24 | The new state and returned call are those of the begin step. |
| MainApp.App.FinishFileSelect | App.tsx:26-34 | The new state is that of the finish step with the English fallback. |
| MainApp.App.HandleFileSelect | App.tsx:15-35 | Begin, the service and finish, in that order. |
| MainApp.App.HandleReset | App.tsx:37-41 | The new state is the reset state. |
| MainApp.FileSelectKeepsInv | App.tsx:15-35 | The whole handler is the select step, followed by the settle step when the extraction is called. From an enabled upload it keeps the invariant. |
| SrcApp.KeyToUseChoice | src/App.tsx:16 | The key used is the trimmed state key when that is not blank, else the environment key. It is empty exactly when both are unusable. |
| SrcApp.BeginOutcome | src/App.tsx:15-29 | No usable key gives ERROR with the Chinese key request and no call. Otherwise PROCESSING with data and message cleared, and the call receives the chosen key. |
| SrcApp.MissingKeyUnreachable | src/App.tsx:16-22 | While the state key is the environment key and the upload box is enabled, the handler always proceeds to PROCESSING. |
| SrcApp.BlankEnvKeyReachesService | src/App.tsx:16-29 | An environment key of spaces is passed to the extraction unchanged. There it fails unless the reply parses. |
| SrcApp.RetryButtonShown | src/App.tsx:138-146 | The retry button is never shown: it asks for ERROR inside a block shown only in PROCESSING or COMPLETE. |
| SrcApp.StepInv | src/App.tsx:10-43 | Every offered event keeps the invariant: key equals environment key, consistency, only the generic error message, non-IDLE implies a key. |
| SrcApp.RunInv | src/App.tsx:10-43 | Any offered sequence of events keeps the invariant. |
| SrcApp.ReachableInv | src/App.tsx:10-43 | In every reachable state the key is the environment key and the state is consistent. The only error message ever shown is the service's generic one. |
| SrcApp.NoEnvKeyStaysIdle | src/App.tsx:91-93 | Without an environment key the upload stays disabled and the page stays in its initial state. |
| SrcApp.FileSelectKeepsInv | src/App.tsx:15-37 | From an enabled upload, the whole handler is the select step followed by the settle step, and it keeps the invariant. |
| SrcApp.App.constructor | src/App.tsx:10-13 | IDLE, no data, no message, key from the environment. |
| SrcApp.App.BeginFileSelect | src/App.tsx:15-26 | The state and call are those of the begin step with the object's environment key. |
| SrcApp.App.FinishFileSelect | src/App.tsx:28-36 | The new state is that of the finish step with the Chinese fallback. |
| SrcApp.App.HandleFileSelect | src/App.tsx:15-37 | Begin, the service and finish, in that order. |
| SrcApp.App.HandleReset | src/App.tsx:39-43 | The new state is the reset state. |

## Left out

- `handleCopy` in the prompt component: a clipboard write and a timer that resets the "copied" flag. This is I/O and UI timing.
- `components/FileUpload.tsx`: file reading, drag and drop, alerts. Only its `disabled` flag is modelled, as `UploadEnabled`.
- `constants.ts` and the remote model call. The call's result is the `Reply` input of `GeminiService.ExtractMedicalData`. Logging with `console.error` is not modelled.
- JSX markup, CSS classes and icons. The views are predicates on the state and a tree of display nodes.
- `async`/`await`: a file selection is modelled as two sequential steps, with the model's reply as an event in between. Overlapping runs of the handler are not modelled. Such a run happens when a second file read finishes after the first handler has started: `disabled` is checked only when the file is dropped or picked (components/FileUpload.tsx:50, 76), `onFileSelect` runs later in `reader.onloadend` (components/FileUpload.tsx:28-34), and `handleFileSelect` never checks `status`. Two such extractions can settle in either order and leave ERROR with a record, or COMPLETE with a message. `MainApp.ReachableInv` and `SrcApp.ReachableInv` therefore hold only when one extraction runs at a time.
- ExtractedDataCard.Json: numbers are integers. `String(x)` and `JSON.stringify` of fractional or exponent-form numbers are not modelled. The exact digits printed for `JNum` match JavaScript only for |n| <= 2^53. Beyond that, JavaScript prints the shortest round-trip digits of the nearest double: 2^64 prints as "18446744073709552000".
- ExtractedDataCard.TextNode: the 100-character threshold counts characters. JavaScript counts UTF-16 code units, so text with characters outside the Basic Multilingual Plane may switch view at a different length.
- ExtractedDataCard.RenderCard: entries are taken in the order given. The reordering `Object.entries` applies to integer-like keys is not modelled, and neither are duplicate keys.
- KeyFormat.CapitalizeWord: `toUpperCase`/`toLowerCase` change ASCII letters only. JavaScript also maps other letters (é, ß, Greek, ...).
- ExtractedDataCard.RenderCard is stated on the parsed JSON object's entries, not on the typed `ExtractedMedicalData`. The parsed object may carry keys outside that type.
- The prompt component in `src/App.tsx` (line 129) receives a prop named `extractedData` while it reads `data`. Read as written, `data.patientName` (components/PromptGenerator.tsx:20) would throw while COMPLETE is rendered. With no error boundary, React then unmounts the whole root, so the entire page goes blank after a successful extraction, including the reset button of `SrcApp.ResetButtonShown` and `ClickReset`. The model does not capture that render failure. `PromptGenerator.GeneratePromptText` is the prompt built from the record, as in `App.tsx`.
- GeminiService.Reply: a parsed reply is always a record. `JSON.parse` of the reply text `null` would give null data. The handler would then set COMPLETE with null data, a state in which the page shows neither results nor a reset button. The model assumes the reply parses to an object, as the response schema (`type: Type.OBJECT`, constants.ts:18-19) requests. `AppCore.Consistent` and both `ReachableInv` lemmas rely on that assumption.
- The retry handler in `src/App.tsx` (line 140) reads fields the record does not have. It is never shown (`SrcApp.RetryButtonShown`), so its handler is not modelled.
- An absent environment key and an absent `err.message` are both the empty string, which JavaScript treats the same way.
- MainApp.App.FinishFileSelect and SrcApp.App.FinishFileSelect take any outcome, including an empty message, as the handler allows. The trace models feed the service's outcome instead.
