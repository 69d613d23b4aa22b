# Reception form: a Dafny model of its form logic

The reception app is one React component. It collects a first-time
registration: name, furigana (phonetic reading), gender, affiliation, club
name, how the user heard of the group, phone number and breakfast preference.
It then sends the answers as one text message through the LINE LIFF SDK.
This project models the logic inside that component:

- the eight-field form record and the single-field update done by both change
  handlers (`form.dfy`, module `Form`);
- the required-field validator, which lists one error per empty field among
  name, furigana, gender and affiliation, in that order (`validation.dfy`,
  module `Validation`);
- the message serialiser: four labelled required lines, then the club-name,
  source and phone-number lines only when those fields are non-empty, with
  empty entries filtered out, joined by newlines under the header
  `初回登録` (`message.dfy`, module `Message`; `text.dfy`, module `Text`, holds
  `join` and, as its inverse, `split`);
- the submit handler: when a message is sent, and which errors are shown
  afterwards (`app.dfy`, module `Reception`, class `App`).

The SDK is not modelled. A submit takes two booleans instead: whether the user
is logged in, and whether the send and the window close after it both complete
without an exception (the `try` block at src/App.tsx:94-109). The handler
returns the text it passes to the send call, if it makes one, and whether it
closes the window.

`FormState` types all eight fields as plain `string` (src/App.tsx:7-16), and
`handleSubmit` requires four of them to be non-empty (src/App.tsx:76-88).

## Model

| member | source | states |
|---|---|---|
| Form.Initial | src/App.tsx:36-45 | the form starts with every one of the eight fields empty |
| Form.Update | src/App.tsx:52-55 | `{ ...formState, [name]: value }` sets the named field to the value and leaves each of the other seven fields unchanged |
| Form.FieldsDetermineState | src/App.tsx:7-16 | two form states that agree on all eight fields are equal, so the record has no other content |
| Form.UpdateIsOnlyChange | src/App.tsx:64-67 | any state where field `f` holds `v` and the other fields are unchanged is exactly the updated state, so the update changes nothing else |
| Reception.App.constructor | src/App.tsx:36-45 | a new component has the all-empty form state and an empty error list |
| Reception.App.HandleTextInputChange | src/App.tsx:47-57 | the form state becomes the old state with only the named field replaced; the error list is not touched |
| Reception.App.HandleSelectInputChange | src/App.tsx:59-69 | the same single-field update for the select inputs |
| Validation.CollectErrors | src/App.tsx:76-88 | the four checks, each pushing onto a list that starts empty, produce exactly the validation result |
| Validation.ValidationReportsEachEmptyFieldOnce | src/App.tsx:76-88 | for each required field, its message occurs exactly once if the field is empty and not at all otherwise |
| Validation.ValidationReportsOnlyEmptyFields | src/App.tsx:76-88 | every message reports an empty required field, and there are at most four messages |
| Validation.ValidationOrdered | src/App.tsx:76-88 | the messages appear in the fixed order name, furigana, gender, affiliation |
| Validation.ValidationPassesIff | src/App.tsx:76-88 | the validation list is empty exactly when name, furigana, gender and affiliation are all non-empty |
| Validation.ValidationIgnoresOptionalFields | src/App.tsx:76-88 | changing clubName, source, phoneNumber or breakfastPreference never changes the validation result |
| Text.Join | src/App.tsx:103 | `join('\n')` of an empty list is the empty string, and no item is longer than the joined string; order and multiplicity of the items are fixed by `Text.SplitJoin` |
| Text.Split | src/App.tsx:103 | splitting a string at the newline gives at least one piece, and no piece holds a newline (the inverse used to read `join`) |
| Text.SplitJoin | src/App.tsx:103 | splitting the join of newline-free items gives back the items, so the join loses no item and adds none |
| Text.JoinSplit | src/App.tsx:103 | joining the pieces of any string at the newline gives the string back, so a text is determined by its lines |
| Text.SplitInjective | src/App.tsx:103 | two strings with the same newline-separated pieces are equal |
| Message.RequiredEntries | src/App.tsx:96-99 | the four required entries are never empty strings, whatever the field values, because each carries a non-empty label |
| Message.RemoveEmpty | src/App.tsx:103 | `filter(item => item !== '')`: a string is in the result exactly when it is a non-empty item of the input, and the result is never longer; order and multiplicity are fixed by `Message.RemoveEmptyAppend` and `Message.RemoveEmptyKeepsNonEmpty` |
| Message.RemoveEmptyAppend | src/App.tsx:103 | filtering a concatenation is the concatenation of the filtered parts, so the filter keeps order |
| Message.RemoveEmptyKeepsNonEmpty | src/App.tsx:103 | a list with no empty item passes the filter unchanged, repeats included |
| Message.LinesStructure | src/App.tsx:95-103 | the kept lines are the `名前`, `ふりがな`, `性別` and `所属` lines in that order, then the `単会名`, `どのように知りましたか` and `電話番号` lines, each present exactly when its field is non-empty, in that relative order |
| Message.LinesCount | src/App.tsx:95-103 | the message has 4 lines plus one per non-empty optional field |
| Message.OutboundTextIgnoresBreakfast | src/App.tsx:95-107 | two states that differ only in breakfastPreference produce the same outbound text, so that field is never sent |
| Message.OptionalLinesIgnoreAffiliation | src/App.tsx:99-102 | changing the affiliation replaces only the `所属` line; which optional lines are sent does not depend on the affiliation |
| Message.HiddenClubNameStillSent | src/App.tsx:152-178 | a club name entered under 他単会 (input visible) is still sent as the first optional line after switching to ゲスト (input hidden), because the message at lines 100-102 tests only that the field is non-empty |
| Message.VisibleInputs | src/App.tsx:117-178 | for any affiliation the four required inputs are shown, no breakfastPreference input is shown, the club-name input and the guest inputs (source, phone number) are never shown together, and the two guest inputs are shown together; with no affiliation chosen, only the four required inputs are shown |
| Message.OutboundTextLines | src/App.tsx:103-107 | the sent text reads back, split at newlines, as the header line `初回登録` followed by exactly the kept lines, provided no field value contains a newline |
| Reception.SendDecision | src/App.tsx:93 | a send is attempted exactly when the user is logged in and all four required fields are non-empty |
| Reception.ErrorsShown | src/App.tsx:73-111 | after a submit the errors are the validation list when no send was attempted or it succeeded, and exactly the single retry message when the send failed; the retry message appears in no other case |
| Reception.App.HandleSubmit | src/App.tsx:71-114 | clears old errors, sets them to the validation list, sends the serialised text exactly when validation passed and the user is logged in, appends the retry message on a failed send, and closes the window only after a successful send; the form state is unchanged |

## Left out

- LIFF SDK calls (`liff.init`, `liff.isLoggedIn`, `liff.sendMessages`, `liff.closeWindow`): these are foreign, asynchronous calls. Login state and send outcome are boolean inputs to `HandleSubmit`. The send and close calls are its results.
- Initialisation status messages and the init-failure error append (src/App.tsx:19, 22-34): SDK plumbing. For the same reason the model does not capture an init failure that appends to the error list during a submit.
- `async`/`await` and React's batching of `setState`: a submit is modelled as one sequential step. Because of this, the functional append on a failed send acts on the validation list just set.
- Field names are an enumeration of the eight record fields. Arbitrary input names, which would add new keys, and the `typeof` guards (src/App.tsx:51, 63) are not modelled: every input in the markup has one of the eight names, and every value is a string.
- The `import.meta.env` lookup of the app id (src/App.tsx:25): configuration, not logic.
- JSX markup, MUI components and the error-list display (src/App.tsx:117-191): presentation. Only which inputs are rendered (src/App.tsx:117-178, with the conditional blocks at 152-178) is kept, as the predicate `Message.Visible`.
- The browser's own check of the `required` inputs (src/App.tsx:123, 127, 131, 142), which can stop a submit before `handleSubmit` runs: browser behaviour. The model runs the handler's own validation on every submit.
- Message.OutboundTextLines: the read-back holds only for field values without line breaks. Every input is a single-line control, and a value with a line break would put extra newlines into the sent text.
