# React registration form: state and validation model

The repository is one React component, `Form`, in `src/components/form.js`. It
renders a registration form: user id, password, name, address, country, zip
code, e-mail, sex, two language check boxes, free text and a photo. Beneath the
JSX it holds a small, fully deterministic core, and this project models that
core in Dafny:

- **`formData`**: the field record and its initial value (`FormData.FormState`, `FormData.Initial`).
- **`handleChange`**: the change reducer (`FormData.Change`). A check-box event rewrites one
  nested `languages` flag. Any other event (text input, select, radio, text area)
  overwrites one top-level field.
- **`handleSubmit`**: three checks run in order and the first failure wins
  (`Submission.Validate`):
  1. the user id has 5 to 7 characters;
  2. the password has 7 to 12 characters;
  3. the e-mail matches `^[^\s@]+@[^\s@]+\.[^\s@]{2,}$`.

  On success, the snapshot `submittedData` is replaced as a whole by a new
  record. That record holds a photo line derived from the selected file and the
  field values (`Submission.Submit`).
- **The component as a whole**: a step function over change and submit events
  (`FormComponent.Step`, `FormComponent.Run`).

The e-mail expression is modelled twice:

- `EmailCheck.EmailPattern` is a ghost predicate. It says the string splits as
  `local @ domain . tld`, with a non-empty local part, a non-empty domain and a
  top-level part of at least two characters. None of the three holds `@` or
  white space.
- `EmailCheck.Scan` is the deterministic automaton of the expression.

`EmailCheck.ScanCorrect` proves that the two accept the same strings. `.` is itself
one of the characters of `[^\s@]`, so all three parts may contain dots: `a@b.c.de`,
`a@..co` and `a.@b.co` are all accepted. `\s` is JavaScript's class: ECMAScript
WhiteSpace and LineTerminator, written out in `EmailCheck.IsSpace`.

Host inputs are parameters:

- the file selected in the photo input is an `Option<string>` holding its name;
- `Submission.Validate` returns `Verdict.Fail(error)` in place of an `alert`, one error per alert. `Submit` and `Step` keep only the fact that a refused submit changes nothing, so which alert fired is not visible in a `Run`.

## Model

| member | source | states |
|---|---|---|
| FormData.InitialState | src/components/form.js:10-24 | every text field starts empty except sex, which starts on "Мужской"; both language flags start false |
| FormData.Extensionality | src/components/form.js:10-24 | the nine string fields and the two language flags are the whole record: states that agree on all of them are equal |
| FormData.Change | src/components/form.js:33-46 | after an event, a field reads the event's value if the event is an edit of that field, and otherwise its old value; a flag reads the event's `checked` if the event toggles that flag, and otherwise its old value |
| FormData.ToggleFrame | src/components/form.js:35-42 | a check-box event sets its own flag to `checked`, leaves the other flag as it was and leaves every top-level field as it was |
| FormData.EditFrame | src/components/form.js:43-45 | a non-check-box event sets the named field to `value` and leaves every other field and the `languages` record as they were |
| FormData.ChangeToCurrentIsIdentity | src/components/form.js:33-46 | an event carrying the value the control already holds leaves the state equal to itself |
| FormData.LastChangeWins | src/components/form.js:33-46 | of two events on the same control, the second overrides the first completely |
| FormData.IndependentChangesCommute | src/components/form.js:33-46 | events on different controls give the same state in either order |
| EmailCheck.ScanSound | src/components/form.js:63 | each phase the automaton reaches truly describes the text read, so reaching the accepting phase means the string has a valid local@domain.tld split |
| EmailCheck.ScanProgress | src/components/form.js:63 | on a string with a valid split, the automaton is at least as far as the split demands after every prefix, and so it accepts |
| EmailCheck.ScanCorrect | src/components/form.js:63 | the automaton accepts a string if and only if the string has a local@domain.tld split of the regular expression |
| EmailCheck.Matches | src/components/form.js:63-64 | the executable test is true exactly for the strings of the e-mail pattern |
| EmailCheck.DeadIsFinal | src/components/form.js:63 | once a prefix is impossible (white space, a misplaced or second `@`), no continuation is accepted |
| EmailCheck.AcceptedSamples | src/components/form.js:63-64 | "a@b.co" and "a@b.c.de" pass the e-mail check |
| EmailCheck.RejectedSamples | src/components/form.js:63-64 | "a@b", "a@b.c", "ab.com", "a b@c.de", "a@@b.co" and "@b.co" fail the e-mail check |
| EmailCheck.LaxSamples | src/components/form.js:63-64 | the pattern also accepts a lone-dot domain ("a@..co") and a local part ending in a dot ("a.@b.co") |
| Submission.Validate | src/components/form.js:53-67 | the user-id error occurs exactly when the id length is outside [5,7]; the password error exactly when the id is valid and the password length is outside [7,12]; the e-mail error exactly when both lengths are valid and the e-mail fails the pattern; success exactly when all three hold |
| Submission.UserIdCheckedFirst | src/components/form.js:53-56 | a user id of the wrong length gives the user-id error whatever the password and e-mail are |
| Submission.PhotoMessage | src/components/form.js:69-73 | with no file the photo line is "Нет фото"; with a file it is "Фото: " followed by exactly the file's name |
| Submission.PhotoNeverPlaceholder | src/components/form.js:70-73 | no file name, not even an empty one, gives the placeholder line |
| Submission.PhotoMessageInjective | src/components/form.js:69-73 | different file selections give different photo lines |
| Submission.Submit | src/components/form.js:48-79 | the field record never changes; when a check fails the snapshot stays as it was; when all pass the new snapshot holds exactly the current fields and the photo line of the selected file |
| Submission.SubmitReplacesWholesale | src/components/form.js:75-78 | after a successful submit, the snapshot does not depend on the one shown before |
| Submission.SubmitIdempotent | src/components/form.js:48-79 | submitting again with the same fields and file changes nothing |
| Submission.EndToEnd | src/components/form.js:53-78 | id "abcde", password "password1" and e-mail "a@b.co" with no file give the placeholder line and a snapshot of exactly those fields; with "photo.png" the line is "Фото: photo.png" |
| FormComponent.Step | src/components/form.js:33-79 | a change event applies the change handler to the fields and never alters the snapshot; a submit never alters the fields; a refused submit alters nothing; an accepted submit shows a snapshot of the current fields with the file's photo line |
| FormComponent.RunKeepsShownValid | src/components/form.js:75-78 | along any sequence of events, a shown snapshot keeps holding fields that passed every check |
| FormComponent.ShownAlwaysValid | src/components/form.js:24-26 | from creation, where nothing is shown, every snapshot ever shown holds fields that passed every check |
| FormComponent.FieldsIgnoreSubmits | src/components/form.js:44-79 | after any sequence of events, the fields equal the change events alone applied in order: submits are invisible to them |
| FormComponent.SnapshotIgnoresChanges | src/components/form.js:33-46 | any run of field changes leaves the shown snapshot as it was |

## Left out

- Rendering: the JSX, the stylesheet import, and the `useEffect` that sets the document title. These are UI and host effects.
- `alert` and `e.preventDefault()`: browser effects. `Submission.Validate` returns `Verdict.Fail(error)`, one error per alert; `Submit` and `Step` keep only the fact that nothing changes, so which alert fired is not visible in `Run`.
- `JSON.stringify(formData, null, 2)`: the snapshot stores the `FormState` itself, not its text. The key order and indentation of the text belong to the JavaScript runtime.
- The file input reference `photoInputRef.current.files[0]`: the host owns it. `Submit` takes the selected file's name as an `Option<string>`. The JavaScript `if (photoFile)` is true for any selected file, so an empty name still gives the "Фото: " prefix.
- The declarative HTML constraints (`minLength`, `maxLength`, `pattern`, `required`, `type="email"`): the browser enforces them before the handler runs, not the component's code.
- React's scheduling: the handler spreads the `formData` its closure captured, and updates may be batched. The model applies each event to the current state.
- Event names outside the form: in JavaScript an unknown `name` would add a new key. `TextField` lists only the nine string fields bound to controls, and `LanguageFlag` lists only the two check boxes. No control edits `languages` as a value, so it is reachable only through check boxes.
- Submission.Validate: the source's `.length` counts UTF-16 code units, but here a string is a sequence of Unicode scalar values. A character outside the Basic Multilingual Plane counts 1 here and 2 in the source.
- EmailCheck.Matches: the source's regular expression has no `u` flag, so it reads UTF-16 code units. A character outside the Basic Multilingual Plane is two `[^\s@]` units there and one character here, so a top-level part made of one such character ("a@b.😀") matches in the source but not in this model.
