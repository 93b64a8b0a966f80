# A verified model of the password manager's rules

This project models, in Dafny, the logic of a small password manager. The manager has an Express and SQLite backend and a React frontend. The model covers:

- **Credential store and handlers.** Each owner holds at most 300 credentials. A credential has a name, a secret kept encrypted at rest, an optional image and security questions. The handlers that create, edit, bulk-delete, decrypt and export credentials are methods on a `CredentialStore` class. The class holds the table as a map from id to record.
- **Account creation.** Checks that the user name is free, then hashes the password and inserts the row.
- **Request schemas.** The credential schema and the account schemas, as predicates over the request body.
- **Errors.** The error classes and their HTTP statuses, the validator's message format and the final error handler.
- **The `protect` gate.** Decides whether a request is authenticated.
- **Table declarations.** Column limits, uniqueness and the cascading foreign key.
- **Frontend state.** The generator-settings store and its rule editor, the two pagers, the reveal-and-copy password cell, and the FormData bodies the add, edit and change-password forms build.

Modules follow the source files:

| Source | Modules |
|---|---|
| `password-controllers.ts` | `PasswordControllers` |
| `password-model.ts` | `PasswordModel` |
| `user-model.ts` | `UserModel` |
| `password-validation.ts` | `PasswordValidation` |
| `user-validation.ts` | `UserValidation` |
| `error-middleware.ts` | `Errors` |
| `protect.ts` | `Protect` |
| `schema.ts` | `Schema` |
| `passwordGeneratorStore.ts` | `GeneratorStore` |
| `EditGeneratePassword.tsx` | `EditGeneratePassword` |
| `PasswordTable.tsx` | `PasswordTable` and `Pagination` |
| `Home.tsx` | `Home` |
| `password-cell.tsx` | `PasswordCell` |
| `AddPassword.tsx` / `EditPassword.tsx` | `PasswordForms` and `FormData` |
| `UpdatePassword.tsx` | `UpdatePassword` |

Supporting modules:

- `Wrappers`: `Option`, `Result` and `Outcome`.
- `Text`: decimal rendering, `join`, ASCII `toLowerCase` and ECMAScript `trim`.
- `Crypto`: encryption as a value.

Environment inputs become parameters. Calls into code that is not part of this model become parameters or class constants:

- **Cipher.** `Crypto.Cipher` is a pair of function values. `encrypt` is deterministic because its key and IV are fixed at start-up. `decrypt` may fail. Properties that need the round trip assume `Crypto.Sound`.
- **bcrypt.** It is `UserTable.hash`, applied to the password, the cost factor 12 and a salt passed in.
- **protect's calls.** jsonwebtoken's `verify` and `fetchUserById` are function arguments of `Protect.Gate`.
- **Database failures.** Each insert's failure is a boolean argument (`insertFails`, `questionsFail`). The database timestamp is an argument `now`.
- **Query helpers.** These helpers are not part of this model and get their plainest reading on the map of records:
  - `getPasswordCount`
  - `checkExistingPassword`
  - `getPasswordById`
  - `updatePassword`
  - `deleteSecurityQuestions`
  - `deletePasswordById`
  - `getPasswords`
- **Two open choices.** Two choices those helpers make are not fixed by the handlers, so they stay open as constants of the store:
  - whether `getPasswordById` filters by owner (`scopedLookup`);
  - the name relation `checkExistingPassword` uses (`nameMatches`).
- **Listing order.** `getPasswords` lists ids in ascending order (`PasswordModel.OwnedBelow`).

## Model

| member | source | states |
|---|---|---|
| Errors.Code | backend/src/middleware/error-middleware.ts:19-35 | every status the core uses is a 4xx or 5xx code |
| Errors.NewAppError | backend/src/middleware/error-middleware.ts:5-16 | an AppError of the base class carries the given message and status |
| Errors.NotFoundError | backend/src/middleware/error-middleware.ts:19-23 | NOT_FOUND, with "Resource Not Found" when no message is given |
| Errors.ValidationError | backend/src/middleware/error-middleware.ts:25-29 | BAD_REQUEST, with "Invalid Input" when no message is given |
| Errors.UnauthorizedError | backend/src/middleware/error-middleware.ts:31-35 | UNAUTHORIZED, with "Unauthorized Access" when no message is given |
| Errors.FormatSingleIssue | backend/src/middleware/error-middleware.ts:45-47 | one issue renders as its dotted path, ": " and its message, with no separator |
| Errors.FormatIssuesSnoc | backend/src/middleware/error-middleware.ts:45-47 | issues render in their order, each one after the first following ", " |
| Errors.PathOfKeyIndexKey | backend/src/middleware/error-middleware.ts:46 | a key/index/key path renders as its segments joined by "." with the index in decimal |
| Errors.Forwarded | backend/src/middleware/error-middleware.ts:40-51 | no error exactly when the parse returned; a schema failure becomes one ValidationError with the formatted issues; any other error is passed on unchanged |
| Errors.ValidateRequest | backend/src/middleware/error-middleware.ts:38-53 | calls `next` exactly once, with Forwarded's argument, and sends no response |
| Errors.ErrorResponse | backend/src/middleware/error-middleware.ts:62-74 | body status is always "error"; an AppError answers with its own status and message, anything else with 500 and "Internal Server Error" |
| Errors.Exchange.constructor | backend/src/middleware/error-middleware.ts:38-75 | a fresh record of a middleware's `next` calls and its response: no call yet, nothing sent |
| Errors.ErrorMiddleware | backend/src/middleware/error-middleware.ts:56-75 | sends exactly ErrorResponse(err) and does not call `next` |
| Errors.OtherErrorsAreNotEchoed | backend/src/middleware/error-middleware.ts:68-74 | two non-AppErrors get the same response, so nothing of their message reaches the client |
| Errors.SubclassResponses | backend/src/middleware/error-middleware.ts:19-35 | default-message subclasses answer 404 "Resource Not Found", 400 "Invalid Input", 401 "Unauthorized Access" |
| Errors.SchemaFailureAnswers400 | backend/src/middleware/error-middleware.ts:44-48 | a schema failure routed through validateRequest and errorMiddleware answers 400 with the formatted issues |
| PasswordValidation.EntryIssuesEmpty | backend/src/validation/password-validation.ts:3-6 | the question entries report no issue iff every question and answer is at most 256 characters |
| PasswordValidation.IssuesEmptyIffAccepts | backend/src/validation/password-validation.ts:8-31 | the issue list is empty, and the parse returns, iff the schema with its refinement accepts |
| PasswordValidation.EmptyStringsPass | backend/src/validation/password-validation.ts:10-11 | no minimum length: empty name and secret pass, with questions absent or empty |
| PasswordValidation.TooManyQuestionsRejected | backend/src/validation/password-validation.ts:16-19 | more than 15 questions fail with "You can add up to 15 questions only" |
| PasswordValidation.UnansweredQuestionRejected | backend/src/validation/password-validation.ts:21-31 | a present entry with an empty question or answer fails, the refinement's issue coming last |
| PasswordValidation.AbsentQuestionsPassRefinement | backend/src/validation/password-validation.ts:23-25 | an absent question list always passes the refinement |
| PasswordValidation.LongNameAnswers400 | backend/src/validation/password-validation.ts:10 | a 101-character name answers 400 "name: Name must be at most 100 characters" end to end |
| PasswordValidation.LongAnswerMessage | backend/src/validation/password-validation.ts:5 | an over-long answer is reported once, under the path questions.k.answer |
| UserValidation.StrictSchemasFixTheKeys | backend/src/validation/user-validation.ts:22-58 | the strict schemas accept only bodies with exactly their keys |
| UserValidation.ExtraKeyRejected | backend/src/validation/user-validation.ts:22-37 | a profile body with any key outside userName/firstName/lastName is rejected |
| UserValidation.EditUserBranchesDisjoint | backend/src/validation/user-validation.ts:60-63 | editUserSchema accepts iff one branch accepts, and both never accept one body |
| UserValidation.MismatchedConfirmationRejected | backend/src/validation/user-validation.ts:39-58 | differing new password and confirmation give one issue on confirmNewPassword and the union rejects |
| UserValidation.CreateUserImpliesLogin | backend/src/validation/user-validation.ts:65-68 | login is createUserSchema without the names, so every creatable body may log in |
| UserValidation.LoginNeedsNoNames | backend/src/validation/user-validation.ts:65-68 | a body with only userName and password logs in but cannot create an account |
| UserValidation.UserNameBounds | backend/src/validation/user-validation.ts:3-7 | userName is bounded 1..50 inclusive: 50 passes, 0 and 51 fail |
| Schema.NewUserRow | backend/src/db/schema.ts:10-12 | created_at defaults to the current timestamp |
| Schema.NewPasswordRow | backend/src/db/schema.ts:23-28 | created_at and updated_at both default to the current timestamp |
| Schema.InsertUser | backend/src/db/schema.ts:4-13 | an admitted insert adds exactly the row under its key |
| Schema.InsertPassword | backend/src/db/schema.ts:15-29 | an admitted insert adds exactly the row under its key |
| Schema.InsertUserKeepsConsistency | backend/src/db/schema.ts:6 | an admitted user insert keeps names unique and owners present; a taken user name is refused |
| Schema.InsertPasswordKeepsConsistency | backend/src/db/schema.ts:20-22 | a credential insert is admitted iff its key is free and its owner exists, and keeps the constraints |
| Schema.SameNameTwiceIsAdmitted | backend/src/db/schema.ts:17 | the name column is not unique: one owner may hold two rows with one name |
| Schema.DeleteUserCascades | backend/src/db/schema.ts:20-22 | deleting a user removes exactly that user's credentials and keeps the constraints |
| Schema.DeclaredLengthsAreNotEnforced | backend/src/db/schema.ts:15-19 | a credential row longer than its declared column lengths is still admitted, since SQLite does not check a text length |
| Schema.CreatedUserRowWithinLengths | backend/src/db/schema.ts:4-9 | a row built from a body createUserSchema accepts stays within the declared lengths whenever the stored hash is at most 256 characters |
| Crypto.EqualCiphertextsMeanEqualPlaintexts | backend/src/utils/crypto.ts:26-38 | with a fixed IV and a sound cipher, equal ciphertexts come exactly from equal plaintexts |
| PasswordModel.QuestionRecords | backend/src/models/password-model.ts:47-51 | one record per question, in order, each under passwordId with the question and answer copied |
| PasswordModel.OwnedBelow | backend/src/controllers/password-controllers.ts:21-26 | the listing holds only the owner's ids, strictly ascending |
| PasswordModel.OwnedBelowComplete | backend/src/controllers/password-controllers.ts:21-26 | an id is listed iff it is below the bound, stored and held by the owner |
| PasswordModel.OwnedBelowAgree | backend/src/controllers/password-controllers.ts:21-26 | the listing depends only on which ids the owner holds |
| PasswordModel.OwnedBelowInsert | backend/src/models/password-model.ts:16-28 | a credential inserted at the next id joins its owner's listing at the end and changes no other listing |
| PasswordModel.OwnedBelowUpdate | backend/src/controllers/password-controllers.ts:202-205 | replacing a credential with one of the same owner changes no listing |
| PasswordModel.Lookup | backend/src/controllers/password-controllers.ts:157-160 | Some(record) exactly when stored and, under scoping, held by the caller |
| PasswordModel.CredentialStore.constructor | backend/src/db/schema.ts:15-29 | an empty valid store whose next id is 1 |
| PasswordModel.CredentialStore.OwnedIds | backend/src/controllers/password-controllers.ts:21-26 | every listed id is a stored credential of the owner |
| PasswordModel.CredentialStore.AddPassword | backend/src/models/password-model.ts:8-38 | inserts exactly name, password, image and owner under the next id with no questions and returns only id, name and image; a failed insert is a 500 "Error adding password" and stores nothing |
| PasswordModel.CredentialStore.AddSecurityQuestions | backend/src/models/password-model.ts:40-63 | appends QuestionRecords for the credential; a failed insert, or a missing credential, is a 500 "Error adding security questions" and stores nothing |
| PasswordModel.CredentialStore.UpdatePassword | backend/src/controllers/password-controllers.ts:194-205 | overwrites name and secret, and the image only when one is given |
| PasswordModel.CredentialStore.DeleteSecurityQuestions | backend/src/controllers/password-controllers.ts:211 | empties the credential's questions and changes nothing else |
| PasswordModel.CredentialStore.DeletePasswordById | backend/src/controllers/password-controllers.ts:325-326 | removes exactly that id |
| PasswordModel.CredentialStore.RemoveImage | backend/src/controllers/password-controllers.ts:183-192 | records the removal and changes no record |
| PasswordControllers.ImagePath | backend/src/controllers/password-controllers.ts:47 | a path exactly when a file was uploaded: "/uploads/" followed by the file name |
| PasswordControllers.QuestionTexts | backend/src/controllers/password-controllers.ts:64-66 | the question texts in order |
| PasswordControllers.ElementCountAtMostLength | backend/src/controllers/password-controllers.ts:67 | a Set built from a list is never larger than the list |
| PasswordControllers.SetSizeIffDistinct | backend/src/controllers/password-controllers.ts:67-69 | the Set is as large as the list iff no element repeats |
| PasswordControllers.UniqueIffPairwiseDistinct | backend/src/controllers/password-controllers.ts:62-72 | the Set-size test passes exactly when question texts are pairwise distinct |
| PasswordControllers.EncryptAnswers | backend/src/controllers/password-controllers.ts:92-97 | same length and order; each question text unchanged, each answer encrypt(answer) |
| PasswordControllers.QuotaBoundary | backend/src/controllers/password-controllers.ts:56-61 | any owner holding 300 or more is refused with the quota message; 299 with nothing else wrong passes |
| PasswordControllers.CreateRejectionsAre400 | backend/src/controllers/password-controllers.ts:56-80 | every check failure of createPassword is a ValidationError answered with 400 |
| PasswordControllers.RepeatedQuestionRejected | backend/src/controllers/password-controllers.ts:62-72 | below the quota, two questions with equal text fail with "Each security question must be unique." before the name is checked |
| PasswordControllers.InsertKeepsNamesUnique | backend/src/controllers/password-controllers.ts:74-80 | a case-insensitive name check before the insert keeps names unique per owner |
| PasswordControllers.StoreCredential | backend/src/controllers/password-controllers.ts:81-103 | stores encrypt(password) and the image under the next id, then questions with encrypted answers in order; 500s as the inserts fail |
| PasswordControllers.CreatePassword | backend/src/controllers/password-controllers.ts:38-112 | a check failure (quota, then repeated question, then taken name) stores nothing. On success the record is exactly the encrypted credential with its questions, and joins the caller's listing at the end. The count grows by at most one, the 300 bound is kept, and case-insensitive name uniqueness is kept |
| PasswordControllers.EditRejections | backend/src/controllers/password-controllers.ts:157-169 | a missing credential is 400 "Password not found.", not a 404; another owner's is 401 |
| PasswordControllers.CaseOnlyRenamePasses | backend/src/controllers/password-controllers.ts:171-179 | a rename that only changes letter case never meets the name check |
| PasswordControllers.EditedQuestionsIffQuestionStepPassed | backend/src/controllers/password-controllers.ts:211-231 | the edited credential has questions iff a non-empty list passed; a repeated question leaves it with none |
| PasswordControllers.RenameKeepsNamesUnique | backend/src/controllers/password-controllers.ts:171-179 | a rename past the case-insensitive check keeps names unique per owner |
| PasswordControllers.ApplyEdit | backend/src/controllers/password-controllers.ts:181-231 | removes the replaced image, overwrites name, secret and (when uploaded) image, drops every question, and only then checks and inserts the new ones |
| PasswordControllers.EditPassword | backend/src/controllers/password-controllers.ts:138-241 | a failed check (missing, foreign, taken name) changes nothing. Otherwise: the record becomes EditedCredential, the old image is removed when replaced, and a later question failure keeps the update with no questions. No listing changes and name uniqueness is kept |
| PasswordControllers.StripLeadingSlash | backend/src/controllers/password-controllers.ts:312-314 | exactly one leading "/" is dropped, and nothing else changes |
| PasswordControllers.BulkDeleteStep | backend/src/controllers/password-controllers.ts:295-327 | one loop step: a rejection ends the run where it stands, otherwise the id is deleted and the run continues |
| PasswordControllers.BulkDeletePrefix | backend/src/controllers/password-controllers.ts:295-327 | the deleted ids are a prefix of the request, all of it iff nothing failed, and exactly they leave the store |
| PasswordControllers.BulkDeleteOnlyOwn | backend/src/controllers/password-controllers.ts:301-309 | only the caller's stored credentials are ever deleted |
| PasswordControllers.BulkDeleteStopsAtFirstRejection | backend/src/controllers/password-controllers.ts:301-309 | a failed run stopped at the first undeleted id, for that id's reason in the store as the earlier deletions left it |
| PasswordControllers.ScopedBulkDeleteFailsWith400 | backend/src/controllers/password-controllers.ts:296-303 | with an owner-scoped lookup the run can only fail with 400, never 401 |
| PasswordControllers.RepeatedIdFailsAfterDeleting | backend/src/controllers/password-controllers.ts:295-327 | naming one id twice deletes it, then fails with "not found", keeping the deletion |
| PasswordControllers.DeletePasswordsBulk | backend/src/controllers/password-controllers.ts:281-337 | a missing or empty list is 400 and changes nothing; otherwise the store, the image removals and the answer are those of BulkDelete on the old store |
| PasswordControllers.DecryptPassword | backend/src/controllers/password-controllers.ts:339-359 | a failure is the decryption error |
| PasswordControllers.DecryptPasswordRoundTrip | backend/src/controllers/password-controllers.ts:345-353 | decrypting a ciphertext of a sound cipher returns its plaintext |
| PasswordControllers.FirstPage | backend/src/controllers/password-controllers.ts:371-376 | the first min(n, 10000) ids of the listing, in order |
| PasswordControllers.ExportAllEntrywise | backend/src/controllers/password-controllers.ts:380-406 | the export succeeds iff every entry does, and then lists each entry in listing order |
| PasswordControllers.ExportAllFailsByPrefix | backend/src/controllers/password-controllers.ts:380-406 | one failing entry fails the whole export |
| PasswordControllers.ExportedAnswersArePlaintexts | backend/src/controllers/password-controllers.ts:391-395 | stored questions export with their submitted plaintext answers, in order |
| PasswordControllers.CreatedCredentialExportsPlaintext | backend/src/controllers/password-controllers.ts:397-401 | a credential as createPassword stores it exports as what was submitted |
| PasswordControllers.ExportCoversOwnerWithinQuota | backend/src/controllers/password-controllers.ts:371-376 | within the quota, the single 10000-item page holds the owner's whole listing |
| PasswordControllers.ExportPasswordsJson | backend/src/controllers/password-controllers.ts:361-419 | the entries of the first page of the caller's listing, or the decryption error when any entry fails |
| UserModel.AddUserFailureAnswers500 | backend/src/models/user-model.ts:40-43 | every failure, the duplicate name included, reaches the client as 500 "Error adding user", never as the 400 |
| UserModel.UserTable.constructor | backend/src/db/schema.ts:4-13 | an empty valid table |
| UserModel.UserTable.AddNewUser | backend/src/models/user-model.ts:7-44 | a taken name or a failed insert is Err("Error adding user", 500) with no insert. Otherwise: one row with hash(password, 12, salt) in place of the plaintext, the result holds only the user name, and names stay unique |
| Protect.Gate | backend/src/middleware/protect.ts:20-39 | no token (absent or empty) exactly when the outcome is NoToken; admitted iff the token verifies and the user is found; the user is then {id, username} of the fetched record |
| Protect.RefusalsAnswer401 | backend/src/middleware/protect.ts:22-39 | `next` gets no error iff admitted; every refusal answers 401; no token answers "You are not logged in" |
| Protect.BadTokenAndMissingUserLookAlike | backend/src/middleware/protect.ts:28-39 | a bad token and a missing user both give "Invalid or expired token" |
| Protect.AuthenticatedRequest.constructor | backend/src/middleware/protect.ts:7-12 | no user, no `next` call yet |
| Protect.Protect | backend/src/middleware/protect.ts:14-40 | calls `next` exactly once with the gate's argument, and sets the user only when admitting |
| GeneratorStore.PatchOverwritesExactlyPresentKeys | frontend/src/store/passwordGeneratorStore.ts:29-30 | each present key overwrites its setting, each absent key keeps it |
| GeneratorStore.EmptyPatchIsIdentity | frontend/src/store/passwordGeneratorStore.ts:29-30 | updateSettings({}) changes nothing |
| GeneratorStore.ApplyPatchIdempotent | frontend/src/store/passwordGeneratorStore.ts:29-30 | applying a patch twice equals applying it once |
| GeneratorStore.FullPatchReplaces | frontend/src/store/passwordGeneratorStore.ts:29-30 | a patch carrying every setting replaces whatever was there |
| GeneratorStore.PasswordGeneratorStore.constructor | frontend/src/store/passwordGeneratorStore.ts:23-28 | length 12, every flag true, no generated password |
| GeneratorStore.PasswordGeneratorStore.UpdateSettings | frontend/src/store/passwordGeneratorStore.ts:29-30 | the settings become ApplyPatch of the old ones; the generated password is kept |
| GeneratorStore.PasswordGeneratorStore.SetGeneratedPassword | frontend/src/store/passwordGeneratorStore.ts:31 | only the generated password changes |
| EditGeneratePassword.ChangeSetsOnlyItsField | frontend/src/components/EditGeneratePassword.tsx:52-58 | a change sets exactly its field (number for length, checked for a checkbox) |
| EditGeneratePassword.SaveBounds | frontend/src/components/EditGeneratePassword.tsx:60-68 | a save goes through iff 5 <= length <= 25; 4 and 26 fail with their messages |
| EditGeneratePassword.RuleEditor.constructor | frontend/src/components/EditGeneratePassword.tsx:24-34 | local settings copy the store's; closed; no error |
| EditGeneratePassword.RuleEditor.HandleInputChange | frontend/src/components/EditGeneratePassword.tsx:52-58 | the local settings take the one change; error and dialog state are kept |
| EditGeneratePassword.RuleEditor.HandleSave | frontend/src/components/EditGeneratePassword.tsx:60-72 | a bad length sets its message and leaves store and dialog alone; a good one clears the error, pushes every setting and closes; a length within 5..25 stays so |
| EditGeneratePassword.RuleEditor.SyncFromStore | frontend/src/components/EditGeneratePassword.tsx:36-50 | when a store setting changed, the local settings are copied from the store |
| Pagination.CeilDiv | frontend/src/components/PasswordTable.tsx:82 | the page count holds every item, has no empty last page, and is 0 only for no items |
| Pagination.CeilDivIsLeast | frontend/src/components/PasswordTable.tsx:82 | the page count is the least number of pages that holds every item |
| Pagination.TenPerPage | frontend/src/components/PasswordTable.tsx:82 | 0, 1, 10, 11 and 300 items take 0, 1, 1, 2 and 30 pages |
| PasswordTable.ButtonRules | frontend/src/components/PasswordTable.tsx:210-250 | Previous goes to max(page - 1, 1) and First/Previous are off on page 1; without data Next and Last are off; Next and Last move to page + 1 and the count |
| PasswordTable.EnabledClicksStayInRange | frontend/src/components/PasswordTable.tsx:210-250 | no enabled button leaves 1..the displayed page count |
| PasswordTable.TablePager.constructor | frontend/src/components/PasswordTable.tsx:34-38 | page 1, empty search |
| PasswordTable.TablePager.Press | frontend/src/components/PasswordTable.tsx:210-250 | a disabled button leaves the page, an enabled one sets Clicked |
| PasswordTable.TablePager.SearchSettled | frontend/src/components/PasswordTable.tsx:42-48 | the search term is taken and the page reset to 1 (page index 0) |
| Home.EmptyListFreezesPageOne | frontend/src/pages/Home.tsx:197-215 | with no items every button is off on page 1 |
| Home.SameRulesAsTable | frontend/src/pages/Home.tsx:116 | with data loaded the home pager's rules equal the table's |
| Home.EnabledClicksStayInRange | frontend/src/pages/Home.tsx:174-215 | no enabled button leaves 1..totalPages |
| Home.HomePager.constructor | frontend/src/pages/Home.tsx:32-39 | page 1, empty search |
| Home.HomePager.Press | frontend/src/pages/Home.tsx:174-215 | a disabled button leaves the page, an enabled one sets Clicked on totalPages |
| Home.HomePager.SearchSettled | frontend/src/pages/Home.tsx:42-49 | the search term is taken and the page reset to 1 |
| PasswordCell.DisplayHashed | frontend/src/components/password-cell.tsx:53-55 | the length is min(16, n) + 3 and the text ends in "..." |
| PasswordCell.DisplayHashedShowsAPrefix | frontend/src/components/password-cell.tsx:53-55 | the shown part is a prefix of the ciphertext of at most 16 characters, all of a short one |
| PasswordCell.PasswordCell.constructor | frontend/src/components/password-cell.tsx:11-12 | hidden, empty cache |
| PasswordCell.PasswordCell.HandleClick | frontend/src/components/password-cell.tsx:15-41 | shown: hides with no request. Hidden with a cache: shows with no request. Hidden with an empty cache: one request. A failure stays hidden with the cache empty. A success caches the value before the copy, then copies and shows, or on a clipboard failure stays hidden with the cache filled |
| FormData.Get | frontend/src/components/AddPassword.tsx:77-91 | no value exactly when no entry has the key |
| FormData.GetFindsFirst | frontend/src/components/AddPassword.tsx:77-91 | get returns the first entry under its key |
| FormData.TextBody | frontend/src/components/UpdatePassword.tsx:71-78 | each body key holds the text get reads; a missing key has no text entry |
| PasswordForms.QuestionEntries | frontend/src/components/AddPassword.tsx:86-91 | question i yields `questions[i][question]` at 2i and `questions[i][answer]` at 2i + 1 |
| PasswordForms.AppendQuestions | frontend/src/components/AddPassword.tsx:87-90 | appends QuestionEntries after what was there |
| PasswordForms.AppendFixedFields | frontend/src/components/AddPassword.tsx:79-84 | name, then password, then the image only when it is a File |
| PasswordForms.EncodeAddPassword | frontend/src/components/AddPassword.tsx:76-94 | the body is SubmittedEntries of the form values |
| PasswordForms.EncodeEditPassword | frontend/src/components/EditPassword.tsx:122-138 | the same body as AddPassword's for the same values, absent questions appending nothing |
| PasswordForms.SubmittedLayout | frontend/src/components/AddPassword.tsx:77-91 | 2 + (file ? 1 : 0) + 2 * questions entries: name, password, the image, then each question's two entries in order |
| PasswordForms.AbsentAndEmptyQuestionsEncodeAlike | frontend/src/components/EditPassword.tsx:131-134 | absent and empty question lists send the same body |
| PasswordForms.DigitsBeforeBracket | frontend/src/components/AddPassword.tsx:88-89 | a number's digits followed by "]" determine the number |
| PasswordForms.QuestionKeyInjective | frontend/src/components/AddPassword.tsx:88-89 | different indices or fields give different keys |
| PasswordForms.QuestionKeyIsNotFixed | frontend/src/components/AddPassword.tsx:79-89 | no question key is "name", "password" or "image" |
| PasswordForms.QuestionEntryKeys | frontend/src/components/AddPassword.tsx:86-91 | each entry after the fixed ones carries its position's question key |
| PasswordForms.EarlierKeysDiffer | frontend/src/components/AddPassword.tsx:86-91 | no entry before a question field's own position shares its key |
| PasswordForms.FixedFieldsReadBack | frontend/src/components/AddPassword.tsx:79-84 | get reads back name, password, and the image exactly when a file was chosen |
| PasswordForms.QuestionReadsBack | frontend/src/components/AddPassword.tsx:86-91 | get reads back each question and answer at its index |
| PasswordForms.NoQuestionPastTheLast | frontend/src/components/AddPassword.tsx:86-91 | no key past the last question index is present |
| UpdatePassword.OnSubmit | frontend/src/components/UpdatePassword.tsx:46-78 | the request targets user id 4 whoever is logged in, with the three trimmed entries in order |
| UpdatePassword.ServerBody | backend/src/app.ts:29 | sent as JSON, each body key holds the text the FormData carries under it; sent as multipart, the body the route validates is empty |
| UpdatePassword.SentBodyIsTrimmed | frontend/src/components/UpdatePassword.tsx:71-78 | as multipart the server reads an empty body; as JSON it reads exactly the three keys, each the trimmed value, none with edge whitespace |
| UpdatePassword.ServerVerdict | frontend/src/components/UpdatePassword.tsx:71-78 | editUserSchema accepts the request iff it travels as JSON, the trimmed values are 1..256 long and trimmed new equals trimmed confirmation; a multipart request is always refused |
| UpdatePassword.BlankPasswordPassesTheFormOnly | frontend/src/components/UpdatePassword.tsx:29-78 | a new password of one space passes the form's own check on the raw value and is rejected by the server after trimming |
| UpdatePassword.SubmitEnabledOnlyWhenEditedAndIdle | frontend/src/components/UpdatePassword.tsx:142 | the button is enabled iff the form is dirty and no request is pending |
| Text.NatToString | backend/src/middleware/error-middleware.ts:46 | at least one decimal digit, no leading zero |
| Text.ParseNatOfNatToString | backend/src/middleware/error-middleware.ts:46 | parsing the rendering gives the number back |
| Text.NatToStringInjective | frontend/src/components/AddPassword.tsx:88 | different numbers render differently |
| Text.JoinSnoc | backend/src/middleware/error-middleware.ts:45-47 | join with one more part appends the separator and the part |
| Text.JoinLength | backend/src/middleware/error-middleware.ts:45-47 | a join's length is the parts plus one separator per gap |
| Text.ToLowerIdempotent | backend/src/controllers/password-controllers.ts:171 | lower-casing twice is lower-casing once |
| Text.ToLowerHasNoUpper | backend/src/controllers/password-controllers.ts:171 | no upper-case ASCII letter survives |
| Text.TrimmedEdges | frontend/src/components/UpdatePassword.tsx:73-75 | a trimmed string is no longer, and neither starts nor ends with whitespace |
| Text.TrimIdempotent | frontend/src/components/UpdatePassword.tsx:73-75 | trimming twice is trimming once |

## Left out

- The cipher (AES-256-CBC, hex parsing, key and IV from the environment) is not modelled. Encryption is a function value. Only `Crypto.Sound` (round trip, non-empty output) is assumed, and only as a lemma hypothesis.
- bcrypt and jsonwebtoken are foreign calls. They are given as function values; their salts, costs and signatures are not modelled.
- `toLowerCase` is modelled on ASCII letters only. Full Unicode case mapping is out of scope.
- String lengths count Dafny characters rather than UTF-16 code units. This affects the schema bounds and `slice(0, 16)`.
- The stored credential carries no timestamps. They appear only in `Schema`'s rows.
- Credential and user ids are handed out from a counter and never reused; SQLite's rowid rule is not modelled beyond that.
- These helpers are not part of this model and have their plainest reading on the store:
  - `getPasswordCount`
  - `checkExistingPassword`, whose name relation is left open as `nameMatches`
  - `getPasswordById`, whose owner filter is left open as `scopedLookup`
  - `updatePassword`
  - `deleteSecurityQuestions`
  - `deletePasswordById`, which is taken to return the deleted id
  - `getPasswords`, which lists in ascending id order, with search out of scope
- `getSecurityQuestions` in the export is read as the credential's stored questions. The `|| []` default and the `Array.isArray` test then always see a list.
- The `securityQuestions` table is not declared in `schema.ts`. Its rows live inside each credential, and deleting a credential removes them with it.
- The foreign key of a credential is not enforced by `CredentialStore`: it trusts the caller id that `protect` set. `Schema.InsertPassword` states the constraint.
- `addSecurityQuestions` is given a failing insert when its credential is missing. What drizzle does for an empty insert list is not modelled: the handlers never call it with one.
- `PasswordControllers.ExportEntry` omits `createdAt` and `updatedAt`, which the store does not keep.
- `Promise.all` in the export is modelled as a sequential map. A failing entry fails the whole export, with its error.
- File-system effects are not modelled. `fs.unlink` and `fs.unlinkSync` are recorded as `removedImages` entries, and their failures are ignored.
- The `path.join` of the removal path is not modelled. The edit handler removes the stored path as it is; the bulk delete removes it with one leading "/" stripped.
- Multer's file naming (`Date.now`, `Math.random`) and storage are left out. An upload is given by its stored file name.
- Multer's parsing of `questions[i][field]` keys into an array is not modelled. The handlers receive the question list directly, and `PasswordForms` shows only that every field can be read back by key.
- `generatePasswordModel` is not part of this model.
- The login-history and password-change handlers are not part of this model.
- `user-controllers.ts` is left out: it orchestrates jwt, bcrypt and cookies and has no logic of its own.
- `fetchUserById`, used by `protect`, is not defined in `user-model.ts`. It is a function value.
- The routes import `createPasswordSchema`, which `password-validation.ts` does not export (it default-exports `passwordSchema`). The model validates with `passwordSchema`.
- The `/decrypt-password` route has no `protect` (backend/src/routes/password-routes.ts:24-27). `DecryptPassword` therefore takes no caller.
- `Number(value)` on a non-numeric input gives NaN, and `Math.ceil` works on floating point. Lengths and counts are integers here: a NaN length is not modelled, and pages use integer ceiling division.
- zod internals are not modelled. For the user schemas, only acceptance is modelled, not the issue list. For `passwordSchema`, the issues are modelled in zod's key order.
- PasswordValidation.PasswordBody, UserValidation.Body: a body is taken to carry its fields as strings. `PasswordBody` always has `name` and `password`, and `Body` maps keys to strings only. So zod's invalid_type issues are not modelled: neither "Required" for a missing `name` or `password` (which would abort `passwordSchema` before its refinement), nor the refusal of a non-string value such as a numeric `userName`.
- PasswordControllers.EditPassword: the success answer's `data`, which is whatever `updatePassword` returns (backend/src/controllers/password-controllers.ts:202-206, 233-237), is not modelled. `updatePassword` is not part of this model and its result is unknown. `PasswordModel.CredentialStore.UpdatePassword` returns nothing, and `EditPassword` answers with the outcome alone.
- React rendering, dialogs, React Query caching, axios, toasts and `console` output are left out.
- `PasswordCell.PasswordCell.HandleClick` takes the backend's answer and the clipboard's success as arguments. The asynchronous interleaving of two quick clicks is not modelled.
- `EditPassword.tsx` preloads the form by decrypting the secret and fetching the questions. That preload is React Query plumbing and is left out; only its `onSubmit` encoding is modelled.
- UpdatePassword.SentBodyIsTrimmed, UpdatePassword.ServerVerdict: `editUserProfile` is not part of this model: it is not defined in `user-api.ts`. How it sends the FormData is the parameter `UpdatePassword.Transport`. The server parses JSON bodies only (backend/src/app.ts:29), and PATCH /api/users/:id mounts no multipart parser (backend/src/routes/user-routes.ts:22). So the three keys reach `editUserSchema` only if the client turns the FormData into a JSON object of its text fields. A multipart request is modelled as reaching the schema with an empty body, and whether `req.body` is then `{}` or undefined is not modelled.
- The `addPassword` and `editPassword` clients are not part of this model: they are not defined in `password-api.ts`. The routes parse those requests as multipart with multer (backend/src/routes/password-routes.ts:31, 39), and the handlers are modelled on the fields multer would deliver.
