# Academix resource page: MIS decoding, playlist ids and resource lists

A Dafny model of the logic in the study-resources page of the Academix
student portal (`client/src/pages/getResource.jsx`):

- **MIS decoding** (`MisDecoder`). A student's MIS number is a 9-character
  identifier. Characters 2..3 hold the two-digit admission year and characters
  4..5 hold the branch code. `processMIS` returns nothing for a missing MIS or
  one of the wrong length. Otherwise it returns the branch name (looked up in
  the one-entry branch table, `"03"` ↦ `"Computer Engineering"`, or the empty
  string) and an estimated semester.
- **Semester estimate** (`MisDecoder.CalculateSemester`). The estimate is twice
  the years elapsed between the admission year and the current two-digit year.
  It is kept when it is 2, 4 or 6, and every other value, or a year that does
  not parse, falls back to `"2"`. The current calendar year is a parameter.
- **Auto-fetch guard** (`MisDecoder.AutoFetchQuery`). On mount the page fetches
  resources by itself only for a decoded MIS with a non-empty branch and semester.
- **Playlist ids** (`Playlist`). The id is what the first match of
  `list=([a-zA-Z0-9_-]+)` in a resource link captures.
- **Resource lists** (`ResourceLists`). The subject selector offers the
  fetched resources' subject names, deduplicated through a `Set`. The resource
  list shows the fetched resources whose subject is the selected one.
- **JavaScript built-ins** (`JsBuiltins`). The page relies on `parseInt`
  (white space, sign, `0x` prefix, longest digit run, NaN), the truncating `%`
  and `toString`, so these are written out with ECMAScript's semantics. `None`
  stands for NaN. `Wrappers` holds the `Option` type, whose `None` also stands
  for `null` and `undefined`.

All of these are pure functions in the source, so they are Dafny functions
here. The lemmas state what they promise: the closed result sets, the
if-and-only-if conditions, the leftmost-maximal match, first-occurrence order,
and that filtering is exactly the subsequence of matching resources.

## Model

| member | source | states |
|---|---|---|
| `MisDecoder.BranchName` | client/src/pages/getResource.jsx:5-8 | the branch is "Computer Engineering" exactly when the code is "03" and the empty string exactly otherwise; any non-empty name is one the branch selector offers (`Branches`, the `branches` list of lines 46-48) |
| `MisDecoder.CurrentYearTwoDigits` | client/src/pages/getResource.jsx:12 | the current two-digit year lies in (-100, 100), and for a non-negative year it is non-negative and congruent to the year modulo 100 |
| `MisDecoder.CalculateSemester` | client/src/pages/getResource.jsx:11-21 | the estimate is always one of the semesters the page offers (`Semesters`, the `semesters` list of line 49: "2", "4", "6") |
| `MisDecoder.CalculateSemesterCases` | client/src/pages/getResource.jsx:13-20 | with d the years elapsed, the estimate is the decimal form of 2*d exactly when d is 1, 2 or 3 ("2", "4", "6" respectively) and "2" for every other d, including zero and negative ones |
| `MisDecoder.CalculateSemesterNaN` | client/src/pages/getResource.jsx:17-20 | an admission year that parsed to NaN gives "2" |
| `MisDecoder.ProcessMIS` | client/src/pages/getResource.jsx:24-37 | the result is absent exactly when the MIS is missing or its length is not 9, never a partial record; otherwise the branch is "Computer Engineering" iff characters 4..5 are "03" and "" iff they are not, and the semester is one of "2", "4", "6", estimated from characters 2..3 |
| `MisDecoder.ProcessMisYearDigits` | client/src/pages/getResource.jsx:28 | when characters 2..3 are decimal digits, the semester is the estimate for the two-digit year they spell |
| `MisDecoder.ProcessMisYearRange` | client/src/pages/getResource.jsx:28 | the admission year read from a 9-character MIS is NaN or an integer in [-9, 99] |
| `MisDecoder.AutoFetchQuery` | client/src/pages/getResource.jsx:181-190 | the page fetches on its own exactly when the MIS has length 9 and branch code "03"; the query it sends is the decoded record, and its branch and semester are values the form's selectors offer |
| `JsBuiltins.LeadingWhiteSpace` | client/src/pages/getResource.jsx:28 | the length of the white-space run `parseInt` skips: every character it counts is white space and the character after it is not |
| `JsBuiltins.TrimStart` | client/src/pages/getResource.jsx:28 | the text `parseInt` reads after skipping white space: what remains is a suffix of the input (`TrimStartSuffix`), only white space is removed from the front, and what remains does not start with white space |
| `JsBuiltins.TrimStartSuffix` | client/src/pages/getResource.jsx:28 | the text left after skipping white space is the input with a prefix removed |
| `JsBuiltins.DigitPrefix` | client/src/pages/getResource.jsx:28 | the digits `parseInt` reads: a prefix made only of digits of the radix and followed by no further digit |
| `JsBuiltins.ParseMagnitude` | client/src/pages/getResource.jsx:28 | the unsigned part `parseInt` reads (decimal, or hexadecimal after `0x`/`0X`) is a number only when it starts with a decimal digit |
| `JsBuiltins.ParseSigned` | client/src/pages/getResource.jsx:28 | after white space, `parseInt` yields a number only when the text starts with a decimal digit or a sign, and a negative number only after `-` |
| `JsBuiltins.ParseInt` | client/src/pages/getResource.jsx:28 | `parseInt` is NaN unless its first non-white-space character is a decimal digit, `-` or `+`, and it is negative only when that character is `-` |
| `JsBuiltins.ParseIntSkipsWhiteSpace` | client/src/pages/getResource.jsx:28 | any run of leading white space is ignored: the result is that of the text after it |
| `JsBuiltins.ParseIntMinus` | client/src/pages/getResource.jsx:28 | a leading `-` gives the negated magnitude of what follows, and NaN when that is NaN |
| `JsBuiltins.ParseIntPlus` | client/src/pages/getResource.jsx:28 | a leading `+` gives the magnitude of what follows unchanged |
| `JsBuiltins.ParseIntUnsigned` | client/src/pages/getResource.jsx:28 | text starting with neither white space nor a sign is read as a magnitude |
| `JsBuiltins.MagnitudeOfDigits` | client/src/pages/getResource.jsx:28 | a non-empty run of decimal digits is read whole, as the number it denotes in base 10 |
| `JsBuiltins.JsRem` | client/src/pages/getResource.jsx:12 | `%` takes the sign of the dividend and is smaller in magnitude than the divisor; for a non-negative dividend it is the ordinary remainder |
| `JsBuiltins.DecimalString` | client/src/pages/getResource.jsx:18 | `toString` of a non-negative integer below 10^21 (here 2, 4 or 6) is a non-empty string of decimal digits with no leading zero |
| `JsBuiltins.ParseIntDecimalString` | client/src/pages/getResource.jsx:28 | `parseInt` reads back every non-negative integer below 10^21 that `toString` writes in decimal form |
| `JsBuiltins.ParseIntDigits` | client/src/pages/getResource.jsx:28 | a non-empty run of decimal digits parses to the number it denotes |
| `JsBuiltins.ParseIntTwoDigits` | client/src/pages/getResource.jsx:28 | two decimal digits parse to their two-digit value |
| `JsBuiltins.ParseIntDigitThenOther` | client/src/pages/getResource.jsx:28 | a digit followed by a non-digit parses to that digit, except "0x" and "0X", which are NaN |
| `JsBuiltins.ParseIntNotANumber` | client/src/pages/getResource.jsx:28 | a string starting with anything but white space, a sign or a decimal digit is NaN |
| `JsBuiltins.ParseIntTwoCharRange` | client/src/pages/getResource.jsx:28 | any two characters parse to NaN or an integer in [-9, 99] |
| `Playlist.TokenRun` | client/src/pages/getResource.jsx:41 | the greedy `[a-zA-Z0-9_-]+` run: a slice of the input made of token characters and not followed by one |
| `Playlist.FirstMatchFrom` | client/src/pages/getResource.jsx:41-42 | the leftmost position where `list=` is followed by a token character, absent exactly when there is none |
| `Playlist.ExtractPlaylistId` | client/src/pages/getResource.jsx:40-44 | absent exactly when no `list=` in the link is followed by a token character; otherwise a non-empty id of token characters, captured at the leftmost such `list=` and not extendable |
| `Playlist.ExtractPlaylistIdComplete` | client/src/pages/getResource.jsx:41-43 | any position and id that fit the description of the first match are exactly what the extractor returns, so the description determines the result |
| `Playlist.ExtractPlaylistIdOccurs` | client/src/pages/getResource.jsx:41-43 | `list=` followed by the returned id is a substring of the link |
| `Playlist.ExtractAfterPrefix` | client/src/pages/getResource.jsx:41-43 | a link with no `=` before its `list=` parameter, whose value is a whole id, yields that id |
| `Playlist.NoMatchWithoutL` | client/src/pages/getResource.jsx:41-43 | a link without the letter `l` yields no id |
| `Playlist.ExtractPlaylistIdFound` | client/src/pages/getResource.jsx:40-44 | `https://youtube.com/playlist?list=PL123abc_-` yields `PL123abc_-` |
| `Playlist.ExtractPlaylistIdAbsent` | client/src/pages/getResource.jsx:40-44 | `https://youtube.com/watch?v=xyz` yields no id |
| `ResourceLists.SubjectNames` | client/src/pages/getResource.jsx:165 | one subject name per fetched resource, position for position |
| `ResourceLists.Distinct` | client/src/pages/getResource.jsx:166 | the deduplicated list holds exactly the input's elements, each once |
| `ResourceLists.DistinctOrder` | client/src/pages/getResource.jsx:166 | the deduplicated list is in order of first occurrence in the input |
| `ResourceLists.SubjectOptions` | client/src/pages/getResource.jsx:165-166 | the subject selector offers every subject name of the fetched data exactly once and nothing else |
| `ResourceLists.SubjectOptionsOrder` | client/src/pages/getResource.jsx:165-166 | the subjects are offered in the order of their first appearance in the fetched data |
| `ResourceLists.FilterBySubject` | client/src/pages/getResource.jsx:208-210 | every shown resource is a fetched one whose subject is the selected subject |
| `ResourceLists.FilterConcat` | client/src/pages/getResource.jsx:208-210 | filtering a concatenation is the concatenation of the filtered parts (order is kept) |
| `ResourceLists.FilterSingle` | client/src/pages/getResource.jsx:208-210 | a single resource is kept exactly when its subject is the selected one |
| `ResourceLists.FilterCount` | client/src/pages/getResource.jsx:208-210 | each resource of the selected subject is kept as many times as it was fetched, and no other resource is kept |
| `ResourceLists.FilterSubsequence` | client/src/pages/getResource.jsx:208-210 | the shown resources are a subsequence of the fetched ones, in their original order |
| `ResourceLists.FilterIdempotent` | client/src/pages/getResource.jsx:208-210 | filtering the shown resources again by the same subject changes nothing |
| `ResourceLists.SubjectOptionShowsResources` | client/src/pages/getResource.jsx:165-166 | a subject is offered exactly when selecting it shows at least one resource |

## Left out

- Fetching resources (`fetchResources`, lines 150-172) is HTTP transport to a backend that is not part of this model. The model takes the fetched resource records as input, and the handling of a missing or failed response is not modelled.
- Reading the MIS from the stored token (`localStorage`, `atob`, `JSON.parse`, lines 176-178) is browser glue. The model takes the MIS claim as an `Option<string>`, where `None` stands for a missing claim. A claim that is present but not a string is not modelled.
- The calendar year (`new Date().getFullYear()`) is a parameter. The clock is not read.
- The `console.log` calls (lines 30-31) are side effects and are not modelled.
- `encodeURIComponent` in the YouTube link (lines 107-109) is a foreign library call and is not modelled. So is the rest of the link template.
- The React state wiring (`useState`, `useEffect`, `setFormData`, `setResources`, `setSubjects`, `setLoading`, `setError`), the JSX rendering and the animations are UI and are not modelled.
- `client/src/pages/Profile.jsx` decodes the MIS through `parseMIS` from `../utils/MISParse`, and that file is not part of this model. The rest of that page is UI and REST calls.
- JavaScript strings are sequences of UTF-16 code units, and the model's strings are sequences of Unicode scalar values. A character outside the Basic Multilingual Plane counts as two toward the MIS length in the source and as one here.
- `JsBuiltins.ParseInt` works on exact integers. ECMAScript converts the parsed value to the nearest double, so magnitudes above 2^53 are rounded (and may become Infinity), and with more than 20 significant digits an engine may also zero the trailing digits. `-0` here is the integer 0. None of this arises for the two-character year field.
- `JsBuiltins.DecimalString`: models `toString` only in its decimal form, which JavaScript uses below 10^21. From 10^21 on JavaScript writes exponent form (`1e+21`), which `parseInt` would read back as 1, and integers above 2^53 are not exact Numbers. The page only converts 2, 4 and 6, so neither case arises there.
- Links are taken to be strings. A `res.link` (line 108) that is not a string makes `url.match` (line 42) throw a `TypeError`, and that is not modelled.
- Resource records are taken to carry a `subject` with a string `name`. A record without one makes `resource.subject.name` throw. At line 165 the error is caught at line 167, after `setResources` (line 164) has already stored the data. The filter at line 209 then throws while rendering, and nothing catches it, so the page crashes. None of these failures is modelled.
- Dedup is modelled on `seq<string>` with string equality. This is the same-value-zero comparison a JavaScript `Set` makes on strings.
- Century rollover is deliberately not corrected. The estimate uses the naive two-digit subtraction the source does, so an admission year after the current two-digit year falls back to "2".
