# Endereço inteligente — a verified model of the address form script

`script.js` drives a Brazilian address form with four fields: CEP (postal
code), Logradouro (street), Número (house number) and UF (state). It has
three parts:

- Four validators. Each returns `null` for a good value or one of two
  Portuguese messages: "required" when the value is empty, and a shape
  message otherwise.
- Two `input` handlers:
  - the CEP field is rewritten as the mask `00000-000`;
  - the UF field is upper-cased.
- A `submit` handler. It runs all four validators in a fixed order,
  appends one labelled line per failure to an error report, and picks the
  alert text.

The Dafny project has six modules:

- `JsString` (`jsstring.dfy`) holds the string builtins the script uses,
  restated over `seq<char>`:
  - the ASCII classes `\d` and `[A-Z]`;
  - `trim`, with the full ECMAScript whitespace set;
  - an ASCII `toUpperCase`;
  - `replace(/\D/g, '')`.
- `Pattern` (`pattern.dfy`) holds the three anchored regular expressions
  as data, with a matcher for `test`. Lemmas turn each pattern into a
  plain positional predicate.
- `Validation` (`validation.dfy`) holds `validarCEP`, `validarLogradouro`,
  `validarNumero` and `validarUF`. The script's `null` becomes `Valid`.
  A returned message becomes `Invalid(e)`, where `e` is one of eight error
  codes. `Message(e)` gives the code's exact string.
- `Formatting` (`formatting.dfy`) holds the CEP mask, with clamping
  `substring`, the upper-case transform, and their properties.
- `Submission` (`submission.dfy`) holds the submit controller twice over:
  - as specification functions. `Check` gives the outcome of one field of a
    snapshot. `Collect` turns the four outcomes into the list of failures.
    `Evaluate` combines the two, and `ErrorText` and `Notification` build
    the alert;
  - as the class `AddressForm`. Its four string slots are rewritten in
    place by `OnCepInput` and `OnUfInput`. `Submit` builds `isValid` and
    `errorMessage` step by step, as the handler does, and is proved equal
    to the specification.

`Scenarios` (`scenarios.dfy`) holds concrete cases of each validator and
of the mask.

The messages are the Portuguese ones in the code, for example "O CEP deve
estar no formato 00000-000.". A validator result is always a string or
`null`. A field value is always a string, so `!value` holds exactly for
`""`.

## Model

| member | source | states |
|---|---|---|
| Pattern.CepRegexIff | script.js:21-22 | `/^(\d{5})-(\d{3})$/.test(s)` holds exactly when `s` has nine characters, a `-` at index 5 and ASCII digits at every other index |
| Pattern.NumeroRegexIff | script.js:55-56 | `/^\d+$/.test(s)` holds exactly when `s` is non-empty and all ASCII digits |
| Pattern.UfRegexIff | script.js:73-74 | `/^[A-Z]{2}$/.test(s)` holds exactly when `s` is two characters, both in `A`-`Z` |
| Pattern.MatchesRunIff | script.js:21 | a fixed run of character classes matches exactly the strings of that length whose every character is in the class at its position |
| Pattern.MatchesStarIff | script.js:55 | a repeated class matches exactly the strings whose every character is in the class |
| Validation.ValidarCEP | script.js:16-26 | the "obrigatório" message exactly for `""`; the format message exactly for non-empty values not of the form `00000-000`; `Valid` exactly for that form |
| Validation.ValidarLogradouro | script.js:34-42 | "obrigatório" exactly for `""`; the "mínimo de 5 caracteres" message exactly for lengths 1 to 4; `Valid` exactly for length at least 5 |
| Validation.ValidarNumero | script.js:50-60 | "obrigatório" exactly for `""`; the "apenas dígitos" message exactly for non-empty values with a non-digit; `Valid` exactly for non-empty all-digit values |
| Validation.ValidarUF | script.js:68-78 | "obrigatório" exactly for `""`; the format message exactly for non-empty values other than two letters `A`-`Z`; `Valid` exactly for two such letters |
| JsString.OnlyDigits | script.js:86 | `replace(/\D/g, '')` leaves only ASCII digits and never lengthens the value |
| JsString.OnlyDigitsConcat | script.js:86 | stripping non-digits distributes over concatenation |
| JsString.OnlyDigitsOfDigits | script.js:86 | a value of digits only is left unchanged |
| Formatting.Substring | script.js:90 | `substring` clamps both bounds to the length, so the result has the length of the clamped range; with the bounds in order it is the slice |
| Formatting.SubstringSwap | script.js:90 | with the bounds reversed, `substring` gives the same piece as with them in order |
| Formatting.MaskCep | script.js:86-93 | the masked value has at most 9 characters, never 6; every character but index 5 is a digit; it has a `-` at index 5 exactly when more than five digits were typed; its length is min(digits, 8), plus one for the hyphen |
| Formatting.MaskCepKeepsDigitPrefix | script.js:86-93 | the digits of the masked value are the first min(n, 8) digits typed |
| Formatting.MaskCepIdempotent | script.js:86-93 | masking a masked value changes nothing |
| Formatting.MaskCepKeepsFormatted | script.js:86-93 | a value already of the form `00000-000` is left as it is |
| Formatting.MaskCepValidation | script.js:17-24 | `validarCEP` on a masked value: `Valid` exactly when at least 8 digits were typed, "obrigatório" exactly when none were, the format message for 1 to 7 digits |
| JsString.UpperChar | script.js:100 | `a`-`z` map to `A`-`Z` (code point minus 32); every other character is its own upper case |
| JsString.ToUpperCase | script.js:100 | `toUpperCase` keeps the length and maps each character on its own |
| Formatting.UpperCaseIdempotent | script.js:100 | upper-casing twice is upper-casing once |
| Formatting.UpperCharIsUpperIff | script.js:100 | a character upper-cases into `A`-`Z` exactly when it is an ASCII letter |
| Formatting.UpperCaseUfShape | script.js:100 | an upper-cased value is two letters `A`-`Z` exactly when the typed value was two ASCII letters of either case |
| Formatting.UpperCaseUfValid | script.js:73-77 | after the UF handler, `validarUF` accepts exactly the two-ASCII-letter values |
| JsString.TrimStartShape | script.js:120 | what dropping leading whitespace leaves is a suffix not starting with whitespace, and all that was dropped is whitespace |
| JsString.TrimEndShape | script.js:120 | what dropping trailing whitespace leaves is a prefix not ending with whitespace, and all that was dropped is whitespace |
| JsString.TrimShape | script.js:120 | `trim` returns the middle piece of the value between a whitespace prefix and a whitespace suffix, and the piece neither starts nor ends with whitespace |
| JsString.TrimEmptyIff | script.js:127 | a value trims to `""` (so "obrigatório") exactly when it is all whitespace |
| JsString.TrimIdempotent | script.js:120 | trimming twice is trimming once |
| JsString.TrimOfTrimmed | script.js:120 | a value with no whitespace at either end is left unchanged |
| Submission.VerdictOfChecks | script.js:113-134 | the outcome recorded for each field is that field's validator on the value the handler passes |
| Submission.FieldsOf | script.js:112-138 | the field of each failure, position by position |
| Submission.FailuresAmongMembers | script.js:112-138 | the collected failures are exactly the fields whose validator fails, each with its own message code, and none of the fields that pass |
| Submission.FailuresAmongOrdered | script.js:112-138 | over fields taken in order, the failures come in the same order |
| Submission.OrderedTail | script.js:112-138 | removing the first field of an ordered list leaves an ordered list that comes entirely after that field |
| Submission.OrderedCons | script.js:112-138 | a field placed before an ordered list of later fields gives an ordered list |
| Submission.EveryFieldInOrder | script.js:112-134 | the handler checks every one of the four fields |
| Submission.CollectAcceptedIff | script.js:109-141 | the four outcomes give success exactly when none of them is a failure |
| Submission.AcceptedIffAllValid | script.js:109-141 | a submit is accepted exactly when every one of the four validators passes |
| Submission.CollectRejected | script.js:112-138 | a rejection lists exactly the failing outcomes with their codes, at least one and at most four, in form order |
| Submission.OrderedAtMostFour | script.js:112-138 | a strictly ordered field list has at most four entries |
| Submission.RejectedListsFailures | script.js:112-138 | a rejected submit lists exactly the failing fields with their own messages, at least one and at most four, in the order CEP, Logradouro, Número, UF |
| Submission.PositionsGrow | script.js:112-138 | in a strictly ordered field list, the field at index i comes at least i places into the form order |
| Submission.ErrorTextConcat | script.js:115-136 | the report of two failure lists in a row is the two reports concatenated |
| Submission.ErrorTextOfFailureOf | script.js:114-136 | a field adds its labelled line `"<Label>: " + msg + "\n"` to the report when it fails and nothing when it passes |
| Submission.FailuresAmongCons | script.js:112-138 | the failures over a field followed by others are the field's failure followed by the others' failures |
| Submission.FieldOrderFailures | script.js:112-138 | the failures of a submit are CEP's, then Logradouro's, then Número's, then UF's |
| Submission.ReportOfFourFields | script.js:110-138 | the report is the four fields' lines in form order, and it has no failure exactly when all four pass |
| Submission.ErrorTextEmptyIff | script.js:141-146 | the report is empty exactly when there is no failure |
| Submission.SubmitDecision | script.js:109-147 | a flag and a report built field by field are the decision and the alert text of the four outcomes |
| Submission.AddressForm.OnCepInput | script.js:85-94 | the CEP slot becomes the mask of its old value; the other slots are unchanged |
| Submission.AddressForm.OnUfInput | script.js:99-101 | the UF slot becomes the upper case of its old value; the other slots are unchanged |
| Submission.AddressForm.Submit | script.js:106-147 | `isValid` holds exactly when the four validators pass, on the untrimmed CEP and UF and on the trimmed street and number; the alert text is the success text when valid, else "Erros no formulário:\n" followed by the labelled lines of the failing fields in form order; no slot changes |
| Scenarios.CepExamples | script.js:16-26 | `01310-100` is accepted; `123` and the unmasked `01310100` get the format message; `""` gets "obrigatório" |
| Scenarios.LogradouroExamples | script.js:34-42 | `Av` is too short; `Av Paulista` is accepted; `""` gets "obrigatório" |
| Scenarios.NumeroExamples | script.js:50-60 | `12a` gets the "apenas dígitos" message; `1000` is accepted; `""` gets "obrigatório" |
| Scenarios.UfExamples | script.js:68-78 | `sp` and `SPX` get the format message; `SP` is accepted; `""` gets "obrigatório" |
| Scenarios.MaskCepExamples | script.js:86-93 | typing `01310100` shows `01310-100`; typing `123` shows `123` |
| Scenarios.TrimExample | script.js:120 | `"  Av Paulista "` trims to `"Av Paulista"` |
| Scenarios.UpperCaseExample | script.js:100 | `sp` upper-cases to `SP` |
| Scenarios.AcceptedInputs | script.js:113-134 | the values of a well-filled form each pass their validator, as the handler passes them |
| Scenarios.AcceptedWhenAllPass | script.js:109-142 | a snapshot whose four validators pass is accepted |
| Scenarios.RejectedWhenAllFail | script.js:112-138 | a snapshot whose four validators fail is rejected with all four failures in form order |
| Scenarios.SubmitAcceptedExample | script.js:106-142 | submitting `01310-100`, `Av Paulista`, `1000`, `SP` is accepted |
| Scenarios.SubmitRejectedExample | script.js:106-146 | submitting `123`, `Av`, `12a`, `sp` gives the CEP, Logradouro, Número and UF failures, in that order |
| Scenarios.TypeAndSubmit | script.js:85-147 | typing `01310100`, `"  Av Paulista "`, `1000` and `sp`, with the two input handlers running, then submitting, gives the success alert |

## Left out

- The DOM wiring is not modelled (`DOMContentLoaded`, `getElementById`,
  `addEventListener`, lines 1-6, 85, 99 and 106). It is browser plumbing.
  The handlers are methods called on an `AddressForm` object instead.
- `e.preventDefault()` (line 107) is not modelled. It is a browser side
  effect.
- `alert` (lines 142 and 146) is not modelled. `Submit` returns the
  alert's text instead of showing it.
- The commented-out `form.reset()` and the server submission
  (lines 143-144) are not modelled. They do not run.
- The caret position after the mask rewrites the field is not modelled.
  The script does not set it, and it is UI behaviour.
- `JsString.ToUpperCase` maps only `a`-`z`. Other characters are left
  unchanged, without the runtime's full Unicode case mapping, so `ß` does
  not become `SS` and `é` does not become `É`. The "exactly" in
  `Formatting.UpperCharIsUpperIff`, `Formatting.UpperCaseUfShape` and
  `Formatting.UpperCaseUfValid` holds only for this ASCII mapping. With
  the runtime's mapping, more typed values pass `validarUF` after the
  handler, for example `ß` (to `SS`), `ıs` (to `IS`) and `ſp` (to `SP`).
- `length` is not modelled as UTF-16. Street length is the number of
  Unicode scalar values, so a character outside the Basic Multilingual
  Plane counts as 1 where JavaScript counts 2.
- `JsString.IsJsWhitespace` fixes the whitespace set of `trim` as of the
  current Unicode space separators. It does not follow the runtime's
  Unicode version.
- The capture groups of the CEP pattern are not modelled. `test` ignores
  them.
- The regular-expression engine is not modelled in general. Only the
  three anchored patterns of the script are, as data with a matcher.
- The validators return the code of a message rather than the string
  itself. The report and the alert use `Validation.Message` to get the
  exact text, so the strings the user sees are those of the script.
