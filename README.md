# Student roster — a Dafny model

A model of the logic of a Taekwondo school's student roster. The roster is a
React front end, and the repository holds two revisions of it:

- a **REST revision**, in `front/`. Its hook keeps the list of students in
  step with a REST service. Its records have nullable fields and eleven belt
  levels.
- a **backend-as-a-service revision**, in `src/`. Its hook reads and writes
  a hosted `students` table and refetches the whole list after every change.
  Its records have required fields and six belt levels. This revision also
  holds the edit dialog (form prefill, ordered validation chain, phone check,
  save payload) and the roster table (belt styles, count label, fallbacks for
  missing fields, delete confirmation).

Each remote call becomes a parameter: the outcome the awaited call gave.
React state becomes a class whose fields the methods reassign. Every toast and
every remote call is appended to a log field. A ghost log records each value
written to a `loading`/`deleting` flag, so "set true, then cleared in
`finally`" is part of the contract.

Modules, one per file:

| module | file | models |
|---|---|---|
| `Wrappers` | wrappers.dfy | `Option`, `Result` |
| `BloodGroups` | blood_groups.dfy | `BLOOD_TYPES` (the same eight labels in both revisions) |
| `RestTypes` | rest_types.dfy | front/src/types/student.ts |
| `Types` | types.dfy | src/types/student.ts |
| `JsText` | js_text.dfy | the JavaScript string and number primitives the dialog relies on: `trim`, `\s`, `parseInt`, `parseFloat`, integer `toString` |
| `RestRoster` | rest_roster.dfy | front/src/hooks/useStudents.ts |
| `Roster` | roster.dfy | src/hooks/useStudents.ts |
| `Phone` | phone.dfy | `validatePhone`: a hand-written recogniser, proved equal to the language of the regular expression |
| `EditDialog` | edit_dialog.dfy | src/components/StudentEditDialog.tsx |
| `Table` | table.dfy | src/components/StudentTable.tsx |

## Model

| member | source | states |
|---|---|---|
| BloodGroups.Parse | src/types/student.ts:35-46 | a label parses to a blood type exactly when it is that type's label |
| BloodGroups.BloodTypesEnumerated | src/types/student.ts:35-46 | `BLOOD_TYPES` has eight entries, lists every blood type once, in the order of its labels |
| BloodGroups.LabelsDistinct | front/src/types/student.ts:50-61 | the eight labels are pairwise distinct and each parses back to its type |
| RestTypes.Rank | front/src/types/student.ts:36-48 | a belt's rank is its index in `BELT_LEVELS` |
| RestTypes.ParseBelt | front/src/types/student.ts:23-34 | a label parses to a belt exactly when it is that belt's label |
| RestTypes.BeltLevelsEnumerateRanks | front/src/types/student.ts:23-48 | `BELT_LEVELS` has 11 entries, lists each belt once, and rank runs from "Faixa Branca" (0) to "Preta" (10) |
| RestTypes.LabelsDistinct | front/src/types/student.ts:23-34 | the eleven labels are distinct and each parses back to its belt |
| RestTypes.BelowIsStrictTotalOrder | front/src/types/student.ts:36-48 | rank order is irreflexive, transitive and total |
| Types.Rank | src/types/student.ts:26-33 | a belt's rank is its index in `BELT_LEVELS` |
| Types.ParseBelt | src/types/student.ts:18-24 | a label parses to a belt exactly when it is that belt's label |
| Types.BeltLevelsEnumerateRanks | src/types/student.ts:18-33 | `BELT_LEVELS` has 6 entries, lists each belt once, and Branca < Amarela < Verde < Azul < Vermelha < Preta |
| Types.LabelsDistinct | src/types/student.ts:18-24 | the six labels are distinct and each parses back to its belt |
| Types.KnownBelt | src/types/student.ts:7 | a record's belt is known exactly when its string is one of the `BELT_LEVELS` labels |
| Types.RecordsAdmitUnlistedLabels | src/types/student.ts:7-8 | (example) a well-typed record can hold a belt outside `BELT_LEVELS` and a blood type outside `BLOOD_TYPES` |
| JsText.TrimStartIsSuffix | src/components/StudentEditDialog.tsx:126 | trimming the start drops exactly the leading white space and keeps the rest |
| JsText.TrimEndIsPrefix | src/components/StudentEditDialog.tsx:126 | trimming the end drops exactly the trailing white space and keeps the rest |
| JsText.TrimIsInfix | src/components/StudentEditDialog.tsx:76 | `trim()` is a contiguous slice of the input, with only white space cut off around it and no white space at either end |
| JsText.TrimEmptyIff | src/components/StudentEditDialog.tsx:76 | `trim()` is empty exactly when every character is white space (the "name required" test) |
| JsText.TrimIdempotent | src/components/StudentEditDialog.tsx:126-134 | trimming twice is trimming once |
| JsText.RemoveWhitespace | src/components/StudentEditDialog.tsx:68 | `replace(/\s/g, "")` leaves no white space and never lengthens the text |
| JsText.RemoveWhitespaceAppend | src/components/StudentEditDialog.tsx:68 | removing white space works piece by piece over a concatenation |
| JsText.RemoveWhitespaceKeepsClean | src/components/StudentEditDialog.tsx:68 | text without white space is left unchanged |
| JsText.RemoveWhitespaceOfBlank | src/components/StudentEditDialog.tsx:68 | all-white-space text becomes empty |
| JsText.RemoveWhitespaceOfTrim | src/components/StudentEditDialog.tsx:126-134 | removing white space after trimming gives the same text as without trimming |
| JsText.ParseIntOfIntText | src/components/StudentEditDialog.tsx:129 | `parseInt` reads back what integer `toString` writes, negative numbers included |
| JsText.NatTextValue | src/components/StudentEditDialog.tsx:53 | the decimal digits of a natural number are all read and have its value |
| JsText.DigitRun | src/components/StudentEditDialog.tsx:85 | `parseInt` reads the longest prefix of digits of the radix |
| JsText.ParseIntSign | src/components/StudentEditDialog.tsx:85 | a leading `-` negates what the rest parses to, a leading `+` changes nothing, and neither turns `NaN` into a number |
| JsText.ParseUnsignedDecimal | src/components/StudentEditDialog.tsx:112 | an unsigned decimal literal never reads as a negative number |
| JsText.ParseFloatNegativeNeedsMinus | src/components/StudentEditDialog.tsx:112-113 | `parseFloat` yields a negative value only for text whose first non-blank character is `-` |
| JsText.ParseFloatOfDigits | src/components/StudentEditDialog.tsx:112 | a digit string reads as its decimal value |
| Phone.RecogniseIffPattern | src/components/StudentEditDialog.tsx:67 | the recogniser accepts exactly the strings `^\(?\d{2}\)?[\s-]?\d{4,5}[\s-]?\d{4}$` matches |
| Phone.ValidatePhoneMeaning | src/components/StudentEditDialog.tsx:65-69 | `validatePhone` accepts the empty string, and otherwise exactly the text whose white-space-free form the pattern matches |
| Phone.PatternDigitCount | src/components/StudentEditDialog.tsx:67 | every string the pattern matches has 10 or 11 digits |
| Phone.AcceptedPhoneDigits | src/components/StudentEditDialog.tsx:65-69 | every accepted non-empty phone has 10 or 11 digits |
| Phone.BlankPhoneRejected | src/components/StudentEditDialog.tsx:66-68 | a non-empty all-white-space phone is rejected, not treated as empty |
| Phone.MobileLayoutAccepted | src/components/StudentEditDialog.tsx:67 | (example) "(11)98765-4321" is accepted |
| Phone.DigitCountRemoveWhitespace | src/components/StudentEditDialog.tsx:68 | removing white space keeps the digit count |
| RestRoster.ErrorMessageNeverBlank | front/src/hooks/useStudents.ts:20-23 | the reported error is blank only when both the body text and the fixed message are blank, or the thrown error's message is; with a fixed message, a refusal shows its body exactly when the body is non-empty |
| RestRoster.PayloadIgnoresIdentity | front/src/hooks/useStudents.ts:47-59 | the POST body carries the eleven data fields and depends on nothing else |
| RestRoster.ReplaceByIdAt | front/src/hooks/useStudents.ts:113-115 | an update keeps length and order, puts the returned record whole at every position whose id equals the returned id, and leaves the rest |
| RestRoster.ReplaceByIdAbsent | front/src/hooks/useStudents.ts:113-115 | when no record has the returned id, the list is unchanged |
| RestRoster.RemoveByIdMembers | front/src/hooks/useStudents.ts:145 | after a delete, the records are exactly the old ones whose id differs |
| RestRoster.RemoveByIdAppend | front/src/hooks/useStudents.ts:145 | the filter works piece by piece, so the kept records keep their order |
| RestRoster.RemoveByIdAbsent | front/src/hooks/useStudents.ts:145 | filtering a list without the id changes nothing |
| RestRoster.RemoveByIdIdempotent | front/src/hooks/useStudents.ts:145 | filtering twice for the same id is filtering once |
| RestRoster.RemoveByIdLength | front/src/hooks/useStudents.ts:145 | a delete removes exactly the records that carry the id |
| RestRoster.RemovePresentUnique | front/src/hooks/useStudents.ts:145 | with unique ids, deleting a present id removes exactly one record |
| RestRoster.StudentsHook.constructor | front/src/hooks/useStudents.ts:9-10 | the hook starts with no students and `loading` true |
| RestRoster.StudentsHook.FetchStudents | front/src/hooks/useStudents.ts:15-38 | `loading` is set true and then false; on success the list becomes exactly the reply, and on failure it is unchanged and one destructive toast carries the error |
| RestRoster.StudentsHook.AddStudent | front/src/hooks/useStudents.ts:41-94 | the POST carries the payload; on success the new record is put first and returned; on failure the list is unchanged, a destructive toast is shown and the error is returned |
| RestRoster.StudentsHook.UpdateStudent | front/src/hooks/useStudents.ts:97-131 | on success every record matching the returned id is replaced by the returned record; on failure the list is unchanged, a destructive toast is shown and the error is returned |
| RestRoster.StudentsHook.DeleteStudent | front/src/hooks/useStudents.ts:134-161 | on success every record with the id is dropped; on failure the list is unchanged, a destructive toast is shown and the error is returned |
| RestRoster.CreateEditDelete | front/src/hooks/useStudents.ts:76-145 | create, update and delete of a fresh id leave the list as it was |
| Roster.ToStudentFallbacks | src/hooks/useStudents.ts:21-36 | the row mapping copies id, name, age, belt, date and timestamps, reads a null or empty optional text column as `""`, and reads a null fee as 0 |
| Roster.NullIfEmptyRoundTrip | src/hooks/useStudents.ts:24-65 | `""` → null → `""`, and null-if-empty undoes the read exactly except for a stored `""` |
| Roster.InsertReadBack | src/hooks/useStudents.ts:21-68 | an inserted record read back gives every input field again, with the id and timestamps the store assigned |
| Roster.WireNamesDistinct | src/hooks/useStudents.ts:97-107 | distinct columns have distinct snake_case names |
| Roster.UpdateDataExactKeys | src/hooks/useStudents.ts:95-107 | the update holds exactly the columns whose fields are defined, each with the field's value; `""` is sent as `""` |
| Roster.BuildUpdateData | src/hooks/useStudents.ts:95-107 | the eleven conditional assignments yield exactly the defined columns with their values |
| Roster.BuiltIsUpdateData | src/hooks/useStudents.ts:95-107 | what the assignments build equals `updateData` |
| Roster.UpdateReadBack | src/hooks/useStudents.ts:95-112 | for a numeric or absent age, a row updated by `updateData` and read back is the old record with the defined fields written over it |
| Roster.NaNAgeSentAsNull | src/hooks/useStudents.ts:100 | a defined `NaN` age goes into the update as the age column with a JSON null |
| Roster.FetchTwice | src/hooks/useStudents.ts:12-49 | two fetches given the same reply leave the list as one fetch does: the mapped rows on success, the old list on failure, where each fetch adds the same toast; two selects are logged |
| Roster.StudentsHook.constructor | src/hooks/useStudents.ts:7-8 | the hook starts with no students and `loading` true |
| Roster.StudentsHook.FetchStudents | src/hooks/useStudents.ts:12-49 | one select; the list becomes the mapped rows, or stays and a destructive toast is shown; `loading` is only ever cleared |
| Roster.StudentsHook.AddStudent | src/hooks/useStudents.ts:52-90 | the insert carries the insert payload; success shows a toast and refetches; failure leaves the list, shows a destructive toast and re-throws |
| Roster.StudentsHook.UpdateStudent | src/hooks/useStudents.ts:93-131 | the update carries `updateData` for the id; success refetches instead of patching; failure leaves the list, shows a destructive toast and re-throws |
| Roster.StudentsHook.DeleteStudent | src/hooks/useStudents.ts:134-158 | the delete names the id; success refetches; failure leaves the list, shows a destructive toast and re-throws |
| Roster.StudentsHook.OnTableChange | src/hooks/useStudents.ts:173-175 | any realtime notification runs the same refetch |
| EditDialog.Prefill | src/components/StudentEditDialog.tsx:47-63 | the prefilled age text parses back to the record's age |
| EditDialog.Validate | src/components/StudentEditDialog.tsx:76-120 | an accepted form yields a non-negative fee equal to the parsed field, and 0 when the field is empty |
| EditDialog.ValidationOrder | src/components/StudentEditDialog.tsx:76-120 | the chain refuses for name, age, belt, phone, fee in that order: each reason exactly when all earlier checks pass and that one fails; it accepts exactly when all pass |
| EditDialog.AcceptedAge | src/components/StudentEditDialog.tsx:85 | an accepted age is non-empty and, when numeric, between 3 and 100 |
| EditDialog.NonNumericAgeAccepted | src/components/StudentEditDialog.tsx:85 | (example) "abc" parses to NaN and passes the age check |
| EditDialog.NonNumericAgeSentAsNull | src/components/StudentEditDialog.tsx:129 | a form age that parses to NaN reaches the store as a null age column |
| EditDialog.AcceptedFee | src/components/StudentEditDialog.tsx:112-120 | once the other checks pass, a non-empty fee is accepted exactly when it parses to a non-negative number, and an empty fee is saved as 0 |
| EditDialog.AcceptedPayload | src/components/StudentEditDialog.tsx:125-137 | an accepted form's payload defines every field, with a non-blank trimmed name, a belt, a phone that still passes the check and a non-negative fee |
| EditDialog.TrimOfTrimmed | src/components/StudentEditDialog.tsx:126-134 | trimming text with no outer white space changes nothing |
| EditDialog.UneditedSaveChangesNothing | src/components/StudentEditDialog.tsx:47-137 | saving a prefilled form unedited writes back every field as it was |
| EditDialog.ValidRecordAccepted | src/components/StudentEditDialog.tsx:47-120 | a record meeting every rule passes the checks unedited, with its own fee |
| EditDialog.PrefillAgeAccepted | src/components/StudentEditDialog.tsx:53-85 | a record aged 3 to 100 passes the age check once prefilled |
| EditDialog.WholeFeeText | src/components/StudentEditDialog.tsx:60-112 | the digits of a whole fee read back as the fee |
| EditDialog.Dialog.constructor | src/components/StudentEditDialog.tsx:32-45 | the dialog starts with an empty form and not loading |
| EditDialog.Dialog.OnStudentChange | src/components/StudentEditDialog.tsx:47-63 | a record fills the form; null leaves it |
| EditDialog.Dialog.CheckForm | src/components/StudentEditDialog.tsx:76-120 | the first failing check adds its toast and yields no fee; otherwise the checked fee, with nothing else changed |
| EditDialog.Dialog.HandleSubmit | src/components/StudentEditDialog.tsx:71-144 | without a record nothing happens; a refusal shows one toast and saves nothing; otherwise one save with the payload, `loading` true then false, and a close only on success |
| EditDialog.Dialog.SaveChecked | src/components/StudentEditDialog.tsx:122-143 | after the checks: one save with the payload, `loading` true then false, a close only when the save succeeds, and no toast (the hook reports failures) |
| Table.BeltColor | src/components/StudentTable.tsx:40-50 | the muted default exactly for labels outside the six belts, the listed class otherwise |
| Table.BeltClassesCoverLevels | src/components/StudentTable.tsx:41-48 | the style table's keys are exactly the six `BELT_LEVELS` labels |
| Table.BeltColorsDistinct | src/components/StudentTable.tsx:40-50 | each of the six belts gets its own non-default style |
| Table.OtherRevisionLabelIsMuted | src/components/StudentTable.tsx:49 | (example) a label of the eleven-rank revision gets the default style |
| Table.CountBadge | src/components/StudentTable.tsx:100-102 | the badge is the count's digits, which read back as the list length, followed by the label |
| Table.OrDash | src/components/StudentTable.tsx:144-154 | a table cell shows the value, or "-" when it is empty; never an empty cell |
| Table.OrElse | src/components/StudentTable.tsx:219-290 | a detail field shows the value, or its fallback when it is empty |
| Table.FeeViewsAgree | src/components/StudentTable.tsx:157-271 | the table and the detail view agree on when a fee is missing: exactly when it is not positive |
| Table.EmptyFeeShownAsMissing | src/components/StudentTable.tsx:157-271 | a fee left empty in the edit form is shown as missing in both views |
| Table.RowOf | src/components/StudentTable.tsx:131-158 | a row shows id, name, belt and its style, an age that reads back, and the fallback cells |
| Table.RenderCountsRows | src/components/StudentTable.tsx:80-116 | once loaded, the badge's number reads back as the number of rows listed, which is the number of records, each row keyed by its record's id |
| Table.RowsFillOptionalCells | src/components/StudentTable.tsx:131-155 | each shown row has non-empty phone and blood-type cells that equal the stored value when there is one |
| Table.DetailsFilled | src/components/StudentTable.tsx:208-292 | every optional detail field is non-empty and shows the stored text exactly when that is non-empty; the age is " anos" after digits that read back as the age |
| Table.RowAndDetailsAgree | src/components/StudentTable.tsx:144-253 | the row and the detail view each show the stored phone and blood type exactly when it is non-empty, and style the belt alike |
| Table.StudentTable.constructor | src/components/StudentTable.tsx:64-67 | nothing selected, edited or awaiting deletion, and not deleting |
| Table.StudentTable.ShowDetails | src/components/StudentTable.tsx:164 | the eye button selects the record and changes nothing else |
| Table.StudentTable.CloseDetails | src/components/StudentTable.tsx:200 | closing the details clears the selection only |
| Table.StudentTable.StartEdit | src/components/StudentTable.tsx:173 | the pencil button hands the record to the edit dialog only |
| Table.StudentTable.CloseEdit | src/components/StudentTable.tsx:302 | the dialog's close clears the edited record only |
| Table.StudentTable.RequestDelete | src/components/StudentTable.tsx:182 | the trash button records the id; the confirmation opens exactly when it is non-empty |
| Table.StudentTable.DismissDelete | src/components/StudentTable.tsx:307 | closing the confirmation clears the id |
| Table.StudentTable.HandleDelete | src/components/StudentTable.tsx:69-78 | without a truthy id nothing happens; otherwise one delete call, `deleting` true then false, the id cleared, and the outcome passed on, a failure included |
| Table.ConfirmTwice | src/components/StudentTable.tsx:69-78 | a second confirmation after the first calls nothing more |

## Left out

- Network and store calls (`fetch`, `res.json()`, `res.text()`, the hosted table's queries) are not modelled. Each is the outcome it gave, passed in as a parameter.
- The realtime channel's subscription and teardown are event-driven I/O. Only the effect of a notification is modelled (`Roster.StudentsHook.OnTableChange`).
- Concurrent mutations are not modelled. The hooks do not serialise them, and each method here runs to completion.
- `console.*` logging is not modelled.
- JSX, dialogs, icons and styling are not modelled, except the class string `getBeltColor` returns.
- `Intl.NumberFormat` currency formatting and `toLocaleDateString` are parameters of `Table.FeeCell`, `Table.FeeDetail`, `Table.RowOf`, `Table.Render` and `Table.DetailsOf`, because they are locale library calls.
- EditDialog.Prefill: the fee's `toString` is a parameter, because double-precision rendering is not modelled. `EditDialog.WholeFeeText` covers whole fees.
- JsText.ParseFloat: fees are exact rationals. Rounding to double precision is not modelled, nor overflow to `Infinity` or underflow to 0 of a large exponent. The text "Infinity" reads as no number here, while JavaScript accepts it as a non-negative fee.
- JsText.ParseInt: the result is an exact integer. Rounding of long digit strings to double precision is not modelled, nor the `-0` that `parseInt("-0")` gives.
- JsText.IntText writes plain digits. JavaScript switches to exponent notation at 1e21, far outside the accepted ages.
- Table.BeltColor: keys inherited from `Object.prototype` (such as "toString") are not modelled; the lookup covers only the six listed labels.
- RestRoster.StudentsHook.UpdateStudent logs the id of the PUT, not its body, because the hook sends its caller's data unexamined.
- JavaScript `undefined` and `null` are both `None` in `RestTypes.Student`. The model does not distinguish them on the wire, though `JSON.stringify` drops an undefined field and sends a null one.
- UpdateReadBack: promises nothing for an update whose age is `NaN`. That age is sent as JSON null (`Roster.NaNAgeSentAsNull`), and what the store does with a null age (a NOT NULL column or a null read back) is not modelled.
- Roster.ApplyUpdate and Roster.Merge: take only an update whose age, if sent, is a number, for the same reason.
- The form's per-field `onChange` edits are not modelled. They only reassign one field of `formData`, and the model takes any `formData`.
- front/src/services/studentService.ts is not part of this model; it is a thin `fetch` wrapper.
- src/pages/Index.tsx, UserBadge.tsx and both ProtectedRoute.tsx files are not part of this model. They compose components or route on an authentication hook.
