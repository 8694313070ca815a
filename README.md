# Contest-entry form: PIN formatter and field updates

This project models the logic of the contest-entry form component in
`src/components/Form.tsx`. The form collects six text fields: first name,
last name, phone, email, a cost guess and a 16-digit "Spidr PIN". The form
holds one record of these six strings. All of them are empty when the form
appears. Each input event replaces one field. The PIN field is different:
its raw text first goes through the PIN formatter, so the stored PIN is
always in dashed form ("1234-5678-9012-3456").

The project has three modules:

- `PinFormat` (`pin_format.dfy`) is the formatter. `FormatSpidrPin` follows
  the source's chain of regular-expression replacements one step at a time:
  - `Digits` removes every non-digit, like `\D`.
  - `Truncate` keeps the first sixteen.
  - `InsertDashes` adds a dash after every complete run of four.
  - `DropTrailingDash` removes one final dash.

  An independent reference definition splits the digits into groups of four
  (`Chunks`) and joins them with dashes (`Join`). `DashedIsJoin` proves that
  the two definitions agree. Lemmas then prove:
  - the output alphabet;
  - the length bound;
  - no trailing dash;
  - which digits are kept, in order;
  - idempotence;
  - that only the input's digits, and only the first sixteen of them,
    affect the output;
  - that the PINs the formatter leaves unchanged are exactly its outputs.
- `PinExamples` (`pin_examples.dfy`) shows what the formatter makes of
  strings of one to sixteen digits, one group of four at a time. It also covers the
  concrete inputs `"1234567890123456"`, `"12345"`, `"1234"` and
  `"abc123!!4567"`.
- `Form` (`form.dfy`) holds the form's state:
  - the `FormData` record, with its all-empty initial value;
  - the input event;
  - the pure update `Changed` and its fold over event sequences `Replay`;
  - the class `FormState`, whose `HandleChange` method updates the held
    record in place.

  The invariant the form keeps is that the stored PIN is canonical (a fixed
  point of the formatter). It holds from the empty form, across any sequence
  of events.

## Model

| member | source | states |
|---|---|---|
| PinFormat.Truncate | src/components/Form.tsx:23 | The result is a prefix of the digits, of length min(n, 16). |
| PinFormat.DigitsAreDigits | src/components/Form.tsx:23 | Removing non-digits leaves only decimal digits and never lengthens the string. |
| PinFormat.DigitsAppend | src/components/Form.tsx:23 | Removing non-digits distributes over concatenation. |
| PinFormat.DigitsOfDigits | src/components/Form.tsx:23 | A string of digits passes through digit extraction unchanged. |
| PinFormat.RemoveDashesIsDigits | src/components/Form.tsx:23-24 | On a string of digits and dashes, removing the dashes is the same as keeping the digits. |
| PinFormat.ChunksWellGrouped | src/components/Form.tsx:24 | Splitting digits into groups gives non-empty groups of at most four digits, all full but the last. There are ceil(n/4) of them, and concatenated they give the digits back. |
| PinFormat.JoinOfGroups | src/components/Form.tsx:24 | Dash-joining such groups gives digits and dashes only, with the groups' digits in order. It is empty iff there are no groups, has one dash fewer than groups, and ends in a digit. |
| PinFormat.DashedIsJoin | src/components/Form.tsx:24 | On digits, "dash after every four, then drop a final dash" equals the reference "split into fours, join with dashes". |
| PinFormat.FormatIsGroupedDigits | src/components/Form.tsx:22-25 | The formatter's output is the first sixteen digits of the input, in at most four well-formed groups of four, joined by single dashes. There are no groups iff the input has no digit. |
| PinFormat.FormatAlphabet | src/components/Form.tsx:22-25 | The output holds only decimal digits and '-'. |
| PinFormat.FormatKeepsLeadingDigits | src/components/Form.tsx:22-25 | Removing the dashes from the output gives exactly the input's first min(n, 16) digits, in order. The output is empty iff the input holds no digit. |
| PinFormat.FormatBounds | src/components/Form.tsx:22-25 | The output is at most 19 characters long and never ends in '-'. |
| PinFormat.FormatIdempotent | src/components/Form.tsx:22-25 | Formatting twice is the same as formatting once. |
| PinFormat.CanonicalIffFormatted | src/components/Form.tsx:22-25 | A string is left unchanged by the formatter iff it is some input's formatted output. |
| PinFormat.CanonicalPinShape | src/components/Form.tsx:22-25 | A canonical PIN is digits and dashes, at most 19 long, with no trailing dash and at most 16 digits. It equals its own digits regrouped by the reference definition. |
| PinFormat.DigitsExactlyWhenDigits | src/components/Form.tsx:23 | A string consists of digits iff digit extraction leaves it unchanged, in both directions. |
| PinExamples.InsertDashesAfterGroup | src/components/Form.tsx:24 | A complete leading group of four is followed by a dash, and the rest is processed the same way. |
| PinExamples.DropTrailingDashOf | src/components/Form.tsx:24 | Exactly one final dash is removed. |
| PinFormat.FormatIgnoresNonDigits | src/components/Form.tsx:23 | Formatting the input gives the same result as formatting its digits alone. |
| PinFormat.FormatDropsExcessDigits | src/components/Form.tsx:23 | With more than sixteen digits, the seventeenth and later digits do not affect the output. |
| PinExamples.FormatOneGroup | src/components/Form.tsx:22-25 | One to four digits are shown as they are, with no dash, including exactly four. |
| PinExamples.FormatOfDigitString | src/components/Form.tsx:22-25 | At most sixteen digits are shown as their groups of four joined by dashes. |
| PinExamples.ChunksAfterGroup | src/components/Form.tsx:24 | A full group of four followed by more digits becomes a group of its own. |
| PinExamples.JoinFour | src/components/Form.tsx:24 | Four groups join with exactly three dashes between them. |
| PinExamples.FormatTwoGroups | src/components/Form.tsx:22-25 | Five to eight digits are shown as the first four, a dash, and the rest. |
| PinExamples.FormatFourGroups | src/components/Form.tsx:22-25 | Thirteen to sixteen digits are shown as three full groups and the rest, separated by three dashes, with no trailing dash. |
| PinExamples.FormatExampleFull | src/components/Form.tsx:22-25 | "1234567890123456" is shown as "1234-5678-9012-3456". |
| PinExamples.FormatExampleFive | src/components/Form.tsx:22-25 | "12345" is shown as "1234-5". |
| PinExamples.FormatExampleFour | src/components/Form.tsx:22-25 | "1234" is shown as "1234", because the dash added after the fourth digit is removed again. |
| PinExamples.MixedDigits | src/components/Form.tsx:23 | The digits of "abc123!!4567" are "1234567". |
| PinExamples.FormatExampleMixed | src/components/Form.tsx:22-25 | "abc123!!4567" is shown as "1234-567". |
| Form.FormData.With | src/components/Form.tsx:29-32 | The named field takes the new value and the other five fields keep theirs. |
| Form.Initial | src/components/Form.tsx:13-20 | Every field of the initial record is empty. |
| Form.Changed | src/components/Form.tsx:27-33 | After one input event, the named field holds the formatted value for the PIN and the raw value otherwise. The other fields are unchanged, a PIN event always stores a canonical PIN, and a canonical PIN stays canonical. |
| Form.ReplayKeepsPinCanonical | src/components/Form.tsx:27-33 | Any sequence of input events keeps a canonical stored PIN canonical. |
| Form.PinAlwaysCanonical | src/components/Form.tsx:13-33 | From the empty form, after any sequence of input events, the stored PIN is canonical: digits and dashes only, at most 19 characters, never ending in a dash. |
| Form.ReplayLeavesOtherFields | src/components/Form.tsx:27-33 | A field that no event in the sequence names keeps its value. |
| Form.FormState.constructor | src/components/Form.tsx:13-20 | The form starts with the all-empty record and a canonical (empty) PIN. |
| Form.FormState.HandleChange | src/components/Form.tsx:27-33 | One input event updates the held record as `Changed` describes. The field takes the formatted or raw value, nothing else changes, and the canonical-PIN invariant is kept. |

## Left out

- The JSX markup, styling and the browser-enforced `required`/`type` attributes of the inputs (`src/components/Form.tsx`:40 onwards). They are presentation, not logic.
- React's `useState` machinery: the model applies each update immediately. It does not model batching, re-rendering or the functional-updater closure.
- `handleSubmit` (`src/components/Form.tsx`:35-38): it only calls `preventDefault` and writes the record to the console; it performs no validation. Both are I/O with no decision logic.
- Form.FormState.HandleChange: field names are the closed enumeration `Field` of the six inputs. In the source, an input with any other `name` attribute would add a new key to the record, and the model does not capture that.
- Full JavaScript regular-expression and UTF-16 semantics are not modelled. `\D` is modelled as "not an ASCII decimal digit", which is what JavaScript's `\D` means. Once the non-digits are removed, only ASCII digits remain, so `slice` and `.` act on plain characters.
