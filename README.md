# FormValidation: the validation rules and form state, in Dafny

This project models the `FormValidation` React component of `src/App.js`. It covers:

- the validation rule engine `validateForm`. It checks four text inputs (username, email, password, confirm-password) and builds a field-to-message map.
- the password-strength classifier `getPasswordStrength`.
- the component state: the input values, the error map, the strength label and the submission status.
- the two event handlers, `handleChange` and `handleSubmit`, each modelled as one atomic state transition.

Modules, one per part of the component:

- `Text` (`text.dfy`) covers JavaScript white space, `String.prototype.trim`, and `length` counted in UTF-16 code units.
  - White space is the full ECMAScript set: TAB, VT, FF, BOM, every Unicode `Zs` space, LF, CR, U+2028 and U+2029. `trim` and the regular-expression class `\S` use the same set.
- `Patterns` (`patterns.dfy`) covers the regular expressions at lines 28, 39 and 56.
  - Each is written as the predicate its unanchored `test` decides: "some substring matches", an existential over positions.
- `Strength` (`strength.dfy`) covers `getPasswordStrength`, a pure function.
- `Validation` (`validation.dfy`) has these parts:
  - the per-field rules as functions and the error map `ErrorsOf` that they define;
  - `ValidateFields`, the imperative body of `validateForm`. It runs the four `if` blocks in order, adding a message and clearing `isValid` in each failing branch. It is proved to return `ErrorsOf` and a flag that is true exactly when the map is empty.
- `Form` (`form.dfy`) is the class `FormValidation`. Its fields are `formData`, `errors`, `submissionStatus` and `passwordStrength`. The handlers are methods that keep an invariant `Valid()`:
  - once a strength label is shown, it is the label of the current password;
  - the stored messages are those of the values last submitted;
  - the status is Success exactly when that submit produced no message.

Two facts about the model:

- `length` is counted in UTF-16 code units, as JavaScript counts it: a character outside the Basic Multilingual Plane counts twice.
- A successful submit keeps the input values. `handleSubmit` (src/App.js:63-73) never clears `formData`.

## Model

| member | source | states |
|---|---|---|
| `Text.Trim` | src/App.js:20 | `trim()` gives the empty string exactly when every character is white space; otherwise the result starts and ends with a non-space character |
| `Text.IsSpace` | src/App.js:20 | the white space that `trim()` removes and `\S` refuses: TAB, LF, VT, FF, CR, SPACE, NO-BREAK SPACE, OGHAM SPACE MARK, U+2000 to U+200A, LINE SEPARATOR, PARAGRAPH SEPARATOR, NARROW NO-BREAK SPACE, MEDIUM MATHEMATICAL SPACE, IDEOGRAPHIC SPACE and BOM; `TrimDropsOnlySpace` and `BlankIsNoEmail` state what depends on it |
| `Text.TrimDropsOnlySpace` | src/App.js:20 | `trim()` keeps one contiguous infix of its input, and every character it drops is white space |
| `Text.Utf16Length` | src/App.js:36 | the `length` used by the length checks lies between the number of characters and twice that number |
| `Text.Utf16LengthAppend` | src/App.js:36 | the `length` of a concatenation is the sum of the `length`s of its parts |
| `Text.Utf16LengthOfBmp` | src/App.js:36 | for text inside the Basic Multilingual Plane, `length` equals the number of characters |
| `Patterns.EmailPattern` | src/App.js:28 | `/\S+@\S+\.\S+/.test`, as an existential over match positions; `EmailPatternShortest` characterizes it and `EmailPatternUnanchored` states it ignores surrounding text |
| `Patterns.HasSpecial` | src/App.js:39 | the look-ahead `(?=.*[!@#$%^&*])` holds exactly when one of the eight characters occurs; `SpecialIsNotBlank` and `AlphanumericHasNoSpecial` state its consequences |
| `Patterns.HasLower` | src/App.js:56 | `(?=.*[a-z])` holds exactly when an ASCII lower-case letter occurs; `ContainsIsPreservedByInsertion` states that inserting text keeps it |
| `Patterns.HasUpper` | src/App.js:56 | `(?=.*[A-Z])` holds exactly when an ASCII upper-case letter occurs; `ContainsIsPreservedByInsertion` states that inserting text keeps it |
| `Patterns.HasDigit` | src/App.js:56 | `(?=.*\d)` holds exactly when an ASCII digit occurs; `ContainsIsPreservedByInsertion` states that inserting text keeps it |
| `Patterns.EmailPatternShortest` | src/App.js:28 | `/\S+@\S+\.\S+/` matches exactly when some '@' has a non-space character before it, and a later '.' has only non-space characters between it and the '@' and a non-space character after it |
| `Patterns.EmailPatternUnanchored` | src/App.js:28 | the email test has no anchors: text before or after an address-shaped substring never makes it fail |
| `Patterns.EmailMatchShifts` | src/App.js:28 | a match of the email pattern inside `s` is a match at the same place, shifted, in any text that contains `s` |
| `Patterns.BlankIsNoEmail` | src/App.js:25-31 | white space alone never passes the email pattern, so the "required" case is one of the pattern's failures |
| `Patterns.SpecialIsNotBlank` | src/App.js:33-42 | a password with a special character is never blank |
| `Patterns.AlphanumericHasNoSpecial` | src/App.js:39 | text made of ASCII letters and digits fails the special-character test |
| `Patterns.ContainsIsPreservedByInsertion` | src/App.js:39-56 | inserting text anywhere keeps the special, lower-case, upper-case and digit tests true |
| `Strength.StrengthOf` | src/App.js:53-61 | `getPasswordStrength`: Weak exactly when `length` < 6; Strong exactly when `length` >= 6 and there is a lower-case letter, an upper-case letter and a digit; Medium exactly when `length` >= 6 and one of the three is missing |
| `Strength.StrengthMonotone` | src/App.js:53-61 | typing more characters anywhere in the password (text inserted between any two parts) never lowers the strength label |
| `Strength.StrengthExamples` | src/App.js:53-61 | "ab" is Weak, "abcdef" is Medium, "Abcdef1" is Strong |
| `Validation.FormData.With` | src/App.js:80-83 | the spread update sets input `f` to `v` and keeps every other input |
| `Validation.UsernameError` | src/App.js:20-23 | the username gets a message exactly when it is only white space, and it is "Username is required" |
| `Validation.EmailError` | src/App.js:25-31 | the email gets a message exactly when it fails the address pattern: "Email is required" when it is only white space, "Email address is invalid" otherwise |
| `Validation.PasswordError` | src/App.js:33-42 | no message exactly when `length` >= 6 and a special character occurs; "required" exactly for white space, "at least 6" exactly for short text that is not all white space, "special character" exactly for long-enough text without one |
| `Validation.ConfirmError` | src/App.js:44-47 | "Passwords do not match" exactly when the confirmation differs from the untrimmed password |
| `Validation.ErrorsOf` | src/App.js:16-50 | the error map has a key exactly for each field whose rule gives a message, and holds that message under it |
| `Validation.ValidateFields` | src/App.js:16-50 | the four checks, run in order, produce exactly the error map `ErrorsOf(d)`; `isValid` is true exactly when that map is empty |
| `Validation.NoErrorsIffNoMessages` | src/App.js:16-50 | the error map is empty exactly when none of the four rules gives a message |
| `Validation.UsernameRule` | src/App.js:20-23 | the username has a message exactly when it is only white space, and the message is "Username is required" |
| `Validation.EmailRule` | src/App.js:25-31 | the email has a message exactly when it fails the address pattern: "Email is required" if it is only white space, "Email address is invalid" otherwise |
| `Validation.PasswordRule` | src/App.js:33-42 | the password has no message exactly when `length` >= 6 and it has a special character; otherwise exactly one message, by priority: "required" exactly for white space, "at least 6" exactly for short text that is not all white space, "special character" exactly for long-enough text without one |
| `Validation.ConfirmRule` | src/App.js:44-47 | the confirmation has the message "Passwords do not match" exactly when it differs from the untrimmed password, whatever the password's own message |
| `Validation.MessagesBelongToTheirFields` | src/App.js:20-47 | each key of the error map holds only the messages of its own rule |
| `Validation.AcceptedIffAcceptable` | src/App.js:16-51 | a form gets no message exactly when the username is not all white space, the email matches the pattern, the password has `length` >= 6 and a special character, and the confirmation equals the password |
| `Validation.AcceptedPasswordIsNotWeak` | src/App.js:33-61 | a password the rules accept is never labelled Weak |
| `Validation.StrongIsNotEnough` | src/App.js:36-61 | "Abcdef1" is labelled Strong but is refused for lacking a special character |
| `Validation.LongAlphanumericNeedsSpecial` | src/App.js:33-42 | any password of six or more ASCII letters and digits gets "Password must contain at least one special character" |
| `Validation.EmailFailureExamples` | src/App.js:25-31 | "foo" is invalid and "" is required |
| `Validation.EmailSuccessExamples` | src/App.js:25-31 | "a@b.co" passes, and so does "not an email: a@b.co", which only contains an address |
| `Validation.PasswordFailureExamples` | src/App.js:33-42 | "abc" is too short, "abcdef" lacks a special character, and six spaces count as required |
| `Validation.PasswordSuccessExample` | src/App.js:33-42 | "abc@12" gets no password message |
| `Validation.ConfirmExamples` | src/App.js:44-47 | "Secret1!" against "Secret1" does not match; a value always matches itself |
| `Form.FormValidation.constructor` | src/App.js:5-14 | the initial state: four empty inputs, no messages, no status (`null`), no strength label (`''`) |
| `Form.FormValidation.ValidateForm` | src/App.js:16-51 | stores the error map of the current inputs and returns true exactly when it is empty; the inputs are unchanged |
| `Form.FormValidation.HandleSubmit` | src/App.js:63-73 | recomputes and stores the error map; the status becomes Success exactly when the map is empty, which is exactly when the inputs are acceptable, and Error otherwise; the inputs and the strength label are unchanged; the invariant is kept |
| `Form.FormValidation.HandleChange` | src/App.js:75-84 | sets only input `name` to `value`; relabels the strength from the new value exactly when `name` is the password; leaves the messages and the status alone; the invariant is kept |
| `Form.ExampleValuesAccepted` | src/App.js:20-56 | "joe", "joe@x.com" and "Abc123!" each pass their rule, and "Abc123!" is Strong |
| `Form.SubmitExample` | src/App.js:63-84 | typing "joe", "joe@x.com", "Abc123!" and a confirmation, then submitting, succeeds exactly when the confirmation is "Abc123!"; otherwise the status is Error and the only message is the mismatch; the label shown is Strong |

## Left out

- The JSX markup, the CSS class choices and the conditional rendering (src/App.js:86-141), and the `./App.css` import. They are presentation only.
- The `console.log` calls and `e.preventDefault()` (src/App.js:64, 67, 70). They are logging and DOM event plumbing. The handlers take the event's `name` and `value` directly.
- React's asynchronous, batched `setState` is not modelled. This includes the stale `formData` that the spread in `handleChange` could capture when updates are batched. Each handler is one atomic, sequential state change.
- General regular-expression semantics. Each of the five patterns is a hand-written predicate with the meaning of its unanchored `test`.
- Unpaired UTF-16 surrogates. A Dafny `char` is a Unicode scalar value, so strings that hold a lone surrogate cannot be represented. For all other strings, `length` is counted in UTF-16 code units, as in JavaScript.
- Input names other than the four fields. `handleChange` accepts any `name` and would add a new key to `formData`. The model's `name` is one of the four fields, because the rendered form has only these inputs.
