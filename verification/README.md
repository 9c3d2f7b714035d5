# Identity form wizard — a Dafny model

`app.js` drives a four-tab personal-data form in the browser. This project models the
three pieces of logic the script contains beneath its DOM code, and proves properties of them:

- **The field validator** (`validateField`). It is a first-match cascade of five rules:
  - a required field that is blank after trimming;
  - the e-mail pattern;
  - a 10–15 digit phone number;
  - a 16-digit identity number (`nik`);
  - a required radio group with an option checked.

  The verdict is a validity flag plus the message shown beside the control. The three
  regular expressions become explicit string predicates. The e-mail predicate is proved
  equal to a reference reading of `^[^\s@]+@[^\s@]+\.[^\s@]+$`, which is three non-empty
  runs of plain characters joined by `@` and `.`.
- **The tab wizard**. Its state is `currentTab` (1..4) and one completion flag per tab. It
  changes through four operations:
  - the ungated tab buttons (`switchTab`);
  - Prev;
  - Next, gated by `validateTab`;
  - submit, which validates all four tabs.

  The state drives the views derived from it: the completion count and status line, the
  navigation buttons, and the progress percentage (`currentTab / 4 * 100`, exactly
  `currentTab * 25`).
- **The repeatable sections** (education, organisation, work history). The code keeps two
  parallel structures:
  - the `formState` array of empty records;
  - the list of entries shown on the page.

  Add, remove and renumber work on both. Remove splices the array at the entry's
  `data-index`. Organisation and work entries have an "ongoing" checkbox that clears and
  locks the end date.

`Form` composes these pieces into the whole form state, with three parts:

- page load;
- a step function over user actions and sessions of actions, which runs either the
  ongoing-checkbox handler as written or the corrected one;
- submission with its summary.

Every session is proved to keep the current tab within 1..4 and each array one longer
than its list. Sessions with the corrected handler also keep the end-date rule.

Sections are modelled as the code behaves:

- Each array is declared as `[{}]`, and page load then adds an entry. So the first entry
  shown has `data-index` 1, is titled "#2", and has a remove control. Its array is always
  one longer than the list (`Sections.InitialSection`, `Sections.Inv`).
- The code does **not** keep at least one entry per section. The entry added at page load
  gets `data-index` 1 and therefore a remove control (app.js:104, 113), so
  `Sections.SectionCanBeEmptied` can remove it and leave the section empty.
- The tab buttons move the wizard without any validation.

Modules, one file each:

- `Chars`: ECMAScript white space, trim and ASCII digits.
- `Decimal`: number rendering and `parseInt`.
- `EmailFormat`.
- `FieldValidation`.
- `Wizard`.
- `Sections`.
- `Form`.

## Model

| member | source | states |
|---|---|---|
| Chars.Trim | app.js:420 | `trim()` yields the empty string exactly when the value is all white space. Otherwise the result neither starts nor ends with white space and is no longer than the value. |
| Chars.TrimStripsEnds | app.js:420 | `trim()` removes exactly a blank prefix and a blank suffix. The result is a contiguous slice of the value with only white space on either side of it. |
| Chars.TrimIdempotent | app.js:420 | Trimming a trimmed value changes nothing. |
| Decimal.NatToString | app.js:162-164 | The number written into `data-index` and into titles is a non-empty digit string with no leading zero. `parseInt` reads it back as the same number. |
| Decimal.NatToStringInjective | app.js:174-179 | Distinct numbers give distinct strings, so renumbered entries get distinct titles. |
| EmailFormat.PatternPassesCheck | app.js:424-425 | Every split of a value into plain-run `@` plain-run `.` plain-run passes the explicit e-mail check. |
| EmailFormat.CheckMatchesPattern | app.js:424-425 | Every value that passes the explicit check has such a split. |
| EmailFormat.EmailCheckMatchesPattern | app.js:424-425 | The explicit check (no white space, exactly one `@`, non-empty local part, a `.` inside the domain) accepts exactly the strings the regular expression matches. |
| FieldValidation.ValidateField | app.js:415-459 | The verdict is valid exactly when its message is empty. Every rejection therefore carries a message and no acceptance does. |
| FieldValidation.RequiredRule | app.js:420-422 | A required blank value is rejected with "Field ini wajib diisi" before any format rule. Once the value is not blank, that message never appears. A non-required empty field always passes. |
| FieldValidation.EmailRule | app.js:423-428 | A non-empty e-mail value that reaches this rule passes exactly when it matches the e-mail pattern. Otherwise it gets the e-mail message. |
| FieldValidation.PhoneRule | app.js:429-434 | A non-empty `tel` value passes exactly when it is 10 to 15 ASCII digits. Otherwise it gets the phone message. |
| FieldValidation.NikRule | app.js:435-439 | A non-empty value named `nik` that no earlier rule caught passes exactly when it is 16 ASCII digits. Otherwise it gets the NIK message. |
| FieldValidation.RadioRule | app.js:440-446 | A required radio button that reaches this rule passes exactly when some button of its group is checked. |
| FieldValidation.OnlyRulesReject | app.js:415-446 | A rejected field meets the guard of one of the five rules. No other field is rejected. |
| FieldValidation.EmailAccepted | app.js:424 | `a@b.co` matches the pattern and passes the check. |
| FieldValidation.EmailRejected | app.js:424 | `a@b`, `a.com`, `a@@b.co` and `a b@c.de` do not match. |
| FieldValidation.DigitExamples | app.js:430-436 | Sample phone and NIK values at and around the length bounds, and with a non-digit, are accepted or rejected as the bounds say. |
| Wizard.Init | app.js:2-14 | The wizard starts on tab 1 with no tab complete. |
| Wizard.Record | app.js:473 | Recording a tab's result sets that tab's flag and no other. |
| Wizard.RequiredFields | app.js:463 | The controls selected by `[required]` are all required, and there are no more of them than controls. |
| Wizard.RequiredFieldsAppend | app.js:463 | Selection keeps document order: the required controls of two consecutive runs of controls are those of the first run followed by those of the second. |
| Wizard.RequiredFieldsSingle | app.js:463 | A single control is selected exactly when it is required. Together with the order lemma, this makes the selection the subsequence of required controls, each once. |
| Wizard.RequiredFieldsMembers | app.js:463 | A control is selected exactly when it is on the tab and required. |
| Wizard.CheckRequired | app.js:464-470 | The fold passes exactly when every required control passes. It yields one verdict per required control, in order: none is skipped after a failure and no optional control is checked. |
| Wizard.ValidateTab | app.js:461-470 | The same, for the field validator. |
| Wizard.SwitchTab | app.js:39-59 | A tab button moves to that tab unconditionally and keeps the flags. A number naming no tab leaves the state as it was. |
| Wizard.Prev | app.js:493-497 | Prev steps back one tab when not on tab 1 and otherwise does nothing. The flags are kept. |
| Wizard.Next | app.js:499-507 | Next records whether the current tab passes and changes no other flag. It moves forward exactly when the tab passes and is not the last. The alert (not accepted) shows exactly when the tab fails. |
| Wizard.ValidateFrom | app.js:516-522 | The submit loop from tab `t` records, for every tab from `t` to 4, whether it passes. It keeps earlier flags and succeeds iff all those tabs pass. |
| Wizard.Submit | app.js:513-529 | Submit sets all four flags to whether each tab passes, keeps the shown tab, and succeeds exactly when all four pass. |
| Wizard.CountTrue | app.js:81 | `filter(v => v).length` is the number of `true` entries among the flags. It is at most their number and equals it exactly when all are true. |
| Wizard.CompletedCount | app.js:80-84 | The completion count is the number of tabs flagged complete. It is at most 4, and is 4 exactly when every tab is flagged complete. |
| Wizard.CompletionStatus | app.js:80-91 | The status line reads "Semua data telah lengkap ✓" exactly when all four tabs are complete. Otherwise it reads "<count>/4 bagian selesai", with the completion count written in decimal. |
| Wizard.Navigation | app.js:532-548 | Exactly one of Next and Submit is shown. |
| Wizard.Progress | app.js:68-74 | The bar width times 4 equals the current tab times 100, and lies between 25 and 100. |
| Wizard.PrevDisabledIffNoMove | app.js:493-497 | Prev is disabled exactly when pressing it would not move. |
| Wizard.NextShownIffNextMoves | app.js:499-503 | On a tab that passes, Next is shown exactly when pressing it moves forward. |
| Wizard.SubmitAcceptedIffAllComplete | app.js:513-529 | The status computed from the flags that Submit records reads "all complete" exactly when the submission succeeded. |
| Wizard.SubmitIdempotent | app.js:516-522 | Submitting twice with the same values gives the same state and verdict as submitting once. |
| Sections.Seed | app.js:5-7 | A section array is declared as `[{}]`, exactly one empty record, with no entry shown. |
| Sections.Add | app.js:102-160 | Add appends exactly one empty record and keeps the earlier ones. The new entry's number is the array length before the push and its title is "#number+1". It has a remove control iff that number is positive, and its checkbox and end date are fresh. |
| Sections.Splice | app.js:169 | `splice(start, 1)` drops the element at `start` and shifts later ones down. Past the end it removes nothing. |
| Sections.Renumber | app.js:174-180 | Every entry's `data-index` becomes its position and its title "#position+1". Nothing else about it changes. |
| Sections.Remove | app.js:162-172 | Removing an entry splices the array at its `data-index` and drops it from the list, with earlier entries kept and later ones shifted. All entries are then renumbered. An entry without a remove control, or a position past the end, changes nothing. |
| Sections.FirstWithKey | app.js:272-273 | A lookup by a name or id built from a key finds the first entry in document order carrying that key. |
| Sections.ApplyOngoing | app.js:275-282 | A checked box clears and disables the end date. An unchecked one re-enables it and restores nothing. |
| Sections.ToggleEndDate | app.js:271-283 | The toggle handler for a key changes only the first entry with that key, by the rule above. |
| Sections.ClickOngoing | app.js:228 | As written, the clicked checkbox flips, then the handler bound to the entry's creation number runs. That handler acts on the first entry carrying the number: the clicked one or an earlier one. If it is the clicked entry, that entry gets the end-date rule applied to its new box state. If it is an earlier one, that entry gets the rule applied to its own unchanged box, and the clicked entry only has its box flipped. Every other entry is untouched. |
| Sections.ClickOngoingAt | app.js:271-283 | As intended: the click flips the checkbox and applies the end-date rule to the clicked entry only. |
| Sections.EditEndDate | app.js:276-280 | Typing changes only that entry's end date, and only while the input is enabled. Education entries have no end-date input, so typing there changes nothing. |
| Sections.InitialSection | app.js:94-113 | After page load a section shows one entry with number 1, titled "#2", with a remove control. Its array holds two records. |
| Sections.AddPreservesInv | app.js:102-160 | Add keeps the array one longer than the list and titles matching numbers. |
| Sections.RemovePreservesInv | app.js:162-180 | Remove keeps the invariant. Under it the splice always falls inside the array, so exactly one record goes. |
| Sections.ClickOngoingPreservesInv | app.js:271-283 | The handler as written keeps the section invariant. |
| Sections.ClickOngoingAtPreservesInv | app.js:271-283 | The intended handler keeps the section invariant. |
| Sections.EditEndDatePreservesInv | app.js:276-280 | Typing an end date keeps the section invariant. |
| Sections.AddThenRemoveLast | app.js:162-172 | On a renumbered section, removing the entry just added restores the section exactly. |
| Sections.SectionCanBeEmptied | app.js:113 | The first entry shown can be removed, leaving the section with no entry. |
| Sections.ClickOngoingAtKeepsOngoingInv | app.js:275-282 | With the intended handler, a checked entry always has an empty, disabled end date and an unchecked one an enabled end date. |
| Sections.AddKeepsOngoingInv | app.js:191-241 | Adding an entry keeps that end-date rule. |
| Sections.RemoveKeepsOngoingInv | app.js:251-269 | Removing an entry keeps that end-date rule. |
| Sections.EditEndDateKeepsOngoingInv | app.js:276-280 | Typing an end date keeps that end-date rule, because a disabled input takes no input. |
| Sections.UniqueKeysClickAsIntended | app.js:271-273 | While no two entries share a creation number, the handler as written acts on the clicked entry. |
| Sections.CheckThenUncheckClearsEndDate | app.js:275-282 | Checking and then unchecking leaves the end date empty and enabled. The earlier value is lost. |
| Sections.CheckThenUncheckClearsEndDateAsWritten | app.js:374-386 | The same holds for the handler as written while creation numbers are unique. |
| Sections.DuplicateKeyBreaksOngoing | app.js:191-228 | Remove-then-add gives two entries the same creation number. Clicking the second one's checkbox then leaves it checked with its typed end date still filled in and enabled. |
| Form.Init | app.js:16-25 | Page load gives tab 1, no tab complete, and in each section one entry numbered 1 with a remove control over a two-record array. |
| Form.WizardAction | app.js:31-35 | A tab click is `switchTab`, Prev is the Prev handler and Next is the Next handler, each on the wizard state. Only Next changes flags, and the state stays valid. |
| Form.SectionAction | app.js:94-172 | Add, remove, the ongoing click with the chosen handler, and typing an end date each apply their section operation. The section invariant and the category are kept. |
| Form.Step | app.js:493-507 | Every user action, with either checkbox handler, keeps the form's shape: a valid wizard and every section's invariant. A tab click moves the wizard by `switchTab`, Prev by the Prev handler and Next by the Next handler, and only Next changes completion flags. Wizard actions leave the sections alone. A section action applies the section operation to its own section, using the chosen handler for the ongoing box, and leaves the wizard and the other sections alone. |
| Form.StepKeepsInv | app.js:271-283 | With the corrected checkbox handler, every action also keeps the end-date rule in every section. |
| Form.RunKeepsShape | app.js:2-14 | Every session with either handler, including the code as written, keeps the current tab within 1..4 and each array one longer than its list. |
| Form.RunKeepsInv | app.js:271-283 | Every session with the corrected checkbox handler also keeps the end-date rule: a ticked box always has an empty, disabled end date. |
| Form.AsWrittenSessionBreaksOngoing | app.js:191-228 | With the handler as written, five actions from page load break the end-date rule in the organisation section. |
| Form.Assemble | app.js:551-580 | The summary repeats name, e-mail and phone and counts the entries shown in each section. Whenever the form has its usual shape, each count is one less than its array's length. |
| Form.SubmitForm | app.js:513-529 | Submission shows the summary exactly when every tab passes. It records each tab's flag, keeps the tab and the sections, and counts the shown entries. |

## Left out

- DOM work: selecting elements, CSS classes, the error text written into the page, focus after a tab switch, the entry markup and the summary HTML. Only the facts they carry are modelled.
- The 300 ms removal delay and slide-out animation (app.js:166-171). Removal is atomic, so a second click on the same remove control during the delay is not modelled.
- `alert`, `confirm` and `location.reload`, along with the save-draft button, which stores nothing (app.js:505, 509-511, 527, 582-590). An alert is the `accepted = false` flag.
- The character counters (app.js:243-248, 346-351, 405-412). They only display a length.
- Re-validation on blur and input (app.js:389-404). It changes only what is displayed, never the form state.
- Wizard.CompletionStatus: the model computes the status line from the state at any time. The page refreshes it only at load and inside `switchTab` (app.js:24, 59, 77). So after a Next that fails on any tab (app.js:504-505), after Next on the last tab, and after submit, the text on screen can lag behind the flags.
- Wizard.SubmitAcceptedIffAllComplete: it speaks of the status computed from the flags Submit records. The submit handler (app.js:513-529) does not refresh the line, so the page shows that status only at the next tab switch.
- Wizard.Navigation: `updateNavigationButtons` runs only inside `switchTab` (app.js:58) and not at page load (app.js:17-25). So this view, and `Wizard.PrevDisabledIffNoMove` with it, describe the page only after the first tab switch. Before that, the buttons keep whatever state the page markup gives them.
- Wizard.SwitchTab: for a tab number outside 1..4 the source throws while looking up the panel (app.js:51), before changing any state. The model returns the state unchanged and does not model the exception.
- Form.Assemble: `FormData.get` returns `null` for a missing control. The model takes the three values as strings.
- Chars.IsWhitespace: the regular-expression engine itself is not modelled. The `\s` class and `trim` share one explicit set, the ECMAScript WhiteSpace and LineTerminator code points.
- The element types of input values (`number`, `date`, `select`) are plain strings. The validator checks none of them.
- Form.RunKeepsInv: the end-date rule is proved only for sessions that run the corrected checkbox handler. `app.js` as written does not keep it (`Form.AsWrittenSessionBreaksOngoing`, see Findings). For sessions as written, only the shape is proved (`Form.RunKeepsShape`).

## Findings

| source | as written | input that shows it | evidently intended | confidence | as-written member | corrected member |
|---|---|---|---|---|---|---|
| app.js:193-228 | A new organisation or work entry takes the array length as its creation number and builds its checkbox name, end-date id and `onchange` handler from it. Removing an entry shortens the array, so the next add can reuse a number that a shown entry still carries. The handler then looks up the first element with that name or id. | Load the organisation tab, add one entry, remove the first entry, then add another. Both shown entries now carry number 2. Type an end date into the second one, then tick its ongoing box. | Ticking an entry's ongoing box clears and disables that entry's own end date. | not executed | Sections.DuplicateKeyBreaksOngoing | Sections.ClickOngoingAtKeepsOngoingInv |
