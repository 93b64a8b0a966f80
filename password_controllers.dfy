/** The credential handlers of backend/src/controllers/password-controllers.ts:
    createPassword, editPassword, deletePasswordsBulk, decryptPassword and
    exportPasswordsJson, as operations on a CredentialStore. The caller is the id
    `protect` put on the request; the uploaded file, when there is one, is given by
    its stored file name; each database insert's failure is an oracle argument. */
module PasswordControllers {
  import opened Wrappers
  import opened Errors
  import opened PasswordValidation
  import opened PasswordModel
  import Crypto
  import Text

  const QuotaLimit := 300
  const QuotaMessage := "You have reached the maximum number of passwords allowed."
  const UniqueQuestionsMessage := "Each security question must be unique."
  const CreateNameTakenMessage := "Password with this name already exists"
  const EditNameTakenMessage := "Password with this name already exists."
  const EditNotFoundMessage := "Password not found."
  const EditForbiddenMessage := "You are not authorized to edit this password"
  const BulkIdsMessage := "Request must contain an array of ids."

  /** The error a failed decryption throws; it is not an AppError. */
  const DecryptFailure := OtherError("bad decrypt")

  // ---------------------------------------------------------------------------
  // Pure pieces shared by the handlers
  // ---------------------------------------------------------------------------

  /** The stored image path of an upload: `/uploads/<file name>`, never empty. */
  function ImagePath(upload: Option<string>): (p: Option<string>)
    ensures p.Some? <==> upload.Some?
    ensures upload.Some? ==>
      |p.value| == 9 + |upload.value| && p.value[..9] == "/uploads/" && p.value[9..] == upload.value
  {
    if upload.Some? then Some("/uploads/" + upload.value) else None
  }

  /** JavaScript truthiness of an optional string. */
  predicate Present(image: Option<string>) {
    image.Some? && image.value != ""
  }

  /** `questions && questions.length > 0` */
  predicate HasQuestions(questions: Option<seq<QuestionAnswer>>) {
    questions.Some? && |questions.value| > 0
  }

  function QuestionTexts(qs: seq<QuestionAnswer>): (ts: seq<string>)
    ensures |ts| == |qs| && forall i :: 0 <= i < |qs| ==> ts[i] == qs[i].question
  {
    seq(|qs|, i requires 0 <= i < |qs| => qs[i].question)
  }

  /** `new Set(questionTexts).size === questionTexts.length` */
  predicate QuestionTextsUnique(qs: seq<QuestionAnswer>) {
    |set t | t in QuestionTexts(qs)| == |qs|
  }

  predicate Distinct(ts: seq<string>) {
    forall i, j :: 0 <= i < j < |ts| ==> ts[i] != ts[j]
  }

  lemma {:induction false} ElementCountAtMostLength(ts: seq<string>)
    ensures |set t | t in ts| <= |ts|
    decreases |ts|
  {
    if ts != [] {
      ElementCountAtMostLength(ts[1..]);
      assert (set t | t in ts) == {ts[0]} + (set t | t in ts[1..]);
    }
  }

  /** A set built from a sequence is as large as the sequence exactly when no
      element repeats. */
  lemma {:induction false} SetSizeIffDistinct(ts: seq<string>)
    ensures |set t | t in ts| == |ts| <==> Distinct(ts)
    decreases |ts|
  {
    if ts != [] {
      var rest := ts[1..];
      assert (set t | t in ts) == {ts[0]} + (set t | t in rest);
      SetSizeIffDistinct(rest);
      if ts[0] in rest {
        ElementCountAtMostLength(rest);
        assert (set t | t in ts) == (set t | t in rest);
        var k :| 0 <= k < |rest| && rest[k] == ts[0];
        assert ts[k + 1] == ts[0];
      } else {
        assert Distinct(ts) <==> Distinct(rest) by {
          if Distinct(rest) {
            forall i, j | 0 <= i < j < |ts|
              ensures ts[i] != ts[j]
            {
              if i > 0 {
                assert ts[i] == rest[i - 1] && ts[j] == rest[j - 1];
              } else {
                assert ts[j] == rest[j - 1];
              }
            }
          }
          if Distinct(ts) {
            forall i, j | 0 <= i < j < |rest|
              ensures rest[i] != rest[j]
            {
              assert rest[i] == ts[i + 1] && rest[j] == ts[j + 1];
            }
          }
        }
      }
    }
  }

  /** The Set-size test accepts exactly the lists whose question texts are pairwise distinct. */
  lemma UniqueIffPairwiseDistinct(qs: seq<QuestionAnswer>)
    ensures QuestionTextsUnique(qs) <==> forall i, j :: 0 <= i < j < |qs| ==> qs[i].question != qs[j].question
  {
    SetSizeIffDistinct(QuestionTexts(qs));
  }

  /** `questions.map(q => ({ question: q.question, answer: encrypt(q.answer) }))` */
  function EncryptAnswers(cipher: Crypto.Cipher, qs: seq<QuestionAnswer>): (r: seq<QuestionAnswer>)
    ensures |r| == |qs|
    ensures forall i :: 0 <= i < |qs| ==>
      r[i].question == qs[i].question && r[i].answer == cipher.encrypt(qs[i].answer)
    decreases |qs|
  {
    if qs == [] then []
    else [QuestionAnswer(qs[0].question, cipher.encrypt(qs[0].answer))] + EncryptAnswers(cipher, qs[1..])
  }

  // ---------------------------------------------------------------------------
  // createPassword
  // ---------------------------------------------------------------------------

  /** The checks createPassword runs before storing anything, in their order:
      the quota, the question texts, the name. */
  function CreateCheck(count: nat, questions: Option<seq<QuestionAnswer>>, nameTaken: bool): Option<Error> {
    if count >= QuotaLimit then Some(ValidationError(Some(QuotaMessage)))
    else if HasQuestions(questions) && !QuestionTextsUnique(questions.value) then Some(ValidationError(Some(UniqueQuestionsMessage)))
    else if nameTaken then Some(ValidationError(Some(CreateNameTakenMessage)))
    else None
  }

  /** The questions a new credential ends up with. */
  function CreatedQuestions(id: int, cipher: Crypto.Cipher, questions: Option<seq<QuestionAnswer>>, questionsFail: bool): seq<StoredQuestion> {
    if HasQuestions(questions) && !questionsFail then QuestionRecords(id, EncryptAnswers(cipher, questions.value)) else []
  }

  /** The quota is a bound of 300 per owner: the 300th credential may be created,
      not the 301st, whatever else the request holds. */
  lemma QuotaBoundary(questions: Option<seq<QuestionAnswer>>, nameTaken: bool)
    ensures forall count: nat :: count >= QuotaLimit ==> CreateCheck(count, questions, nameTaken) == Some(ValidationError(Some(QuotaMessage)))
    ensures CreateCheck(QuotaLimit - 1, None, false) == None
  {
  }

  /** Every check's failure is a ValidationError, answered with 400. */
  lemma CreateRejectionsAre400(count: nat, questions: Option<seq<QuestionAnswer>>, nameTaken: bool)
    ensures var e := CreateCheck(count, questions, nameTaken);
      e.Some? ==> e.value.AppError? && e.value.cls == ValidationClass && ErrorResponse(e.value).status == BadRequest
  {
  }

  /** Two submitted questions with the same text stop the request (once the quota
      allows it), before the name is looked at. */
  lemma RepeatedQuestionRejected(count: nat, qs: seq<QuestionAnswer>, nameTaken: bool, i: nat, j: nat)
    requires count < QuotaLimit
    requires i < j < |qs| && qs[i].question == qs[j].question
    ensures CreateCheck(count, Some(qs), nameTaken) == Some(ValidationError(Some(UniqueQuestionsMessage)))
  {
    UniqueIffPairwiseDistinct(qs);
  }

  /** An insert that keeps every owner's names distinct after lower-casing. */
  lemma InsertKeepsNamesUnique(records: map<int, Credential>, n: int, c: Credential, matches: (string, string) -> bool)
    requires NamesUniqueIgnoringCase(records) && n !in records && MatchesIgnoringCase(matches)
    requires forall id :: id in records && records[id].owner == c.owner ==> !matches(records[id].name, c.name)
    ensures NamesUniqueIgnoringCase(records[n := c])
  {
  }

  /** The storing half of createPassword, once its checks have passed: the
      credential with `encrypt(password)`, then its questions with encrypted answers. */
  method StoreCredential(store: CredentialStore, cipher: Crypto.Cipher, caller: int,
                         name: string, password: string, imagePath: Option<string>,
                         questions: Option<seq<QuestionAnswer>>, insertFails: bool, questionsFail: bool)
    returns (r: Result<NewPassword, Error>)
    requires store.Valid()
    modifies store
    ensures store.Valid() && store.removedImages == old(store.removedImages)
    ensures insertFails ==>
      r == Err(NewAppError("Error adding password", InternalServerError)) &&
      store.records == old(store.records) && store.nextId == old(store.nextId)
    ensures !insertFails ==>
      var id := old(store.nextId);
      && store.nextId == id + 1
      && store.records == old(store.records)[id := Credential(caller, name, cipher.encrypt(password), imagePath,
                                                               CreatedQuestions(id, cipher, questions, questionsFail))]
      && r == (if HasQuestions(questions) && questionsFail
               then Err(NewAppError("Error adding security questions", InternalServerError))
               else Ok(NewPassword(id, name, imagePath)))
  {
    var encrypted := cipher.encrypt(password);
    var added := store.AddPassword(name, encrypted, imagePath, caller, insertFails);
    if added.Err? {
      return Err(added.error);
    }
    var newPassword := added.value;
    if HasQuestions(questions) {
      var encryptedQuestions := EncryptAnswers(cipher, questions.value);
      var outcome := store.AddSecurityQuestions(newPassword.id, encryptedQuestions, questionsFail);
      if !questionsFail {
        assert [] + QuestionRecords(newPassword.id, encryptedQuestions) == QuestionRecords(newPassword.id, encryptedQuestions);
      }
      if outcome.Fail? {
        return Err(outcome.error);
      }
    }
    return Ok(newPassword);
  }

  method CreatePassword(store: CredentialStore, cipher: Crypto.Cipher, caller: int,
                        name: string, password: string, questions: Option<seq<QuestionAnswer>>,
                        upload: Option<string>, insertFails: bool, questionsFail: bool)
    returns (r: Result<NewPassword, Error>)
    requires store.Valid()
    modifies store
    ensures store.Valid() && store.removedImages == old(store.removedImages)
    ensures var check := CreateCheck(old(store.PasswordCount(caller)), questions, old(store.NameExists(name, caller)));
      check.Some? ==> r == Err(check.value) && store.records == old(store.records) && store.nextId == old(store.nextId)
    ensures var check := CreateCheck(old(store.PasswordCount(caller)), questions, old(store.NameExists(name, caller)));
      check.None? && insertFails ==>
        r == Err(NewAppError("Error adding password", InternalServerError)) &&
        store.records == old(store.records) && store.nextId == old(store.nextId)
    ensures var check := CreateCheck(old(store.PasswordCount(caller)), questions, old(store.NameExists(name, caller)));
      var id := old(store.nextId);
      check.None? && !insertFails ==>
        && store.nextId == id + 1
        && store.records == old(store.records)[id := Credential(caller, name, cipher.encrypt(password), ImagePath(upload),
                                                                 CreatedQuestions(id, cipher, questions, questionsFail))]
        && store.OwnedIds(caller) == old(store.OwnedIds(caller)) + [id]
        && r == (if HasQuestions(questions) && questionsFail
                 then Err(NewAppError("Error adding security questions", InternalServerError))
                 else Ok(NewPassword(id, name, ImagePath(upload))))
    ensures store.PasswordCount(caller) <= old(store.PasswordCount(caller)) + 1
    ensures old(store.PasswordCount(caller)) <= QuotaLimit ==> store.PasswordCount(caller) <= QuotaLimit
    ensures MatchesIgnoringCase(store.nameMatches) && old(NamesUniqueIgnoringCase(store.records)) ==>
      NamesUniqueIgnoringCase(store.records)
  {
    ghost var before := store.records;
    ghost var n := store.nextId;
    var imagePath := ImagePath(upload);
    var total := store.PasswordCount(caller);
    if total >= QuotaLimit {
      return Err(ValidationError(Some(QuotaMessage)));
    }
    if HasQuestions(questions) && !QuestionTextsUnique(questions.value) {
      return Err(ValidationError(Some(UniqueQuestionsMessage)));
    }
    if store.NameExists(name, caller) {
      return Err(ValidationError(Some(CreateNameTakenMessage)));
    }
    r := StoreCredential(store, cipher, caller, name, password, imagePath, questions, insertFails, questionsFail);
    if !insertFails {
      ghost var c := store.records[n];
      OwnedBelowInsert(before, n, c, caller);
      if MatchesIgnoringCase(store.nameMatches) && NamesUniqueIgnoringCase(before) {
        InsertKeepsNamesUnique(before, n, c, store.nameMatches);
      }
    }
  }

  // ---------------------------------------------------------------------------
  // editPassword
  // ---------------------------------------------------------------------------

  /** The checks editPassword runs before changing anything, in their order. The
      name is looked up only when it differs from the old one after lower-casing. */
  function EditCheck(existing: Option<Credential>, caller: int, name: string, nameTaken: bool): Option<Error> {
    if existing.None? then Some(ValidationError(Some(EditNotFoundMessage)))
    else if existing.value.owner != caller then Some(UnauthorizedError(Some(EditForbiddenMessage)))
    else if Text.ToLower(name) != Text.ToLower(existing.value.name) && nameTaken then Some(ValidationError(Some(EditNameTakenMessage)))
    else None
  }

  /** What the question step after the update reports. */
  function EditOutcome(questions: Option<seq<QuestionAnswer>>, questionsFail: bool): Outcome<Error> {
    if !HasQuestions(questions) then Pass
    else if !QuestionTextsUnique(questions.value) then Fail(ValidationError(Some(UniqueQuestionsMessage)))
    else if questionsFail then Fail(NewAppError("Error adding security questions", InternalServerError))
    else Pass
  }

  /** The questions an edited credential ends up with: its old ones are always gone. */
  function QuestionsAfterEdit(id: int, cipher: Crypto.Cipher, questions: Option<seq<QuestionAnswer>>, questionsFail: bool): seq<StoredQuestion> {
    if EditOutcome(questions, questionsFail) == Pass && HasQuestions(questions)
    then QuestionRecords(id, EncryptAnswers(cipher, questions.value))
    else []
  }

  /** The credential after an edit that passed its checks. */
  function EditedCredential(c: Credential, id: int, cipher: Crypto.Cipher, name: string, password: string,
                            upload: Option<string>, questions: Option<seq<QuestionAnswer>>, questionsFail: bool): Credential {
    Credential(c.owner, name, cipher.encrypt(password), if upload.Some? then ImagePath(upload) else c.image,
               QuestionsAfterEdit(id, cipher, questions, questionsFail))
  }

  /** The old image is removed only when a new one was uploaded and there was one. */
  function ReplacedImage(c: Credential, upload: Option<string>): seq<string> {
    if upload.Some? && Present(c.image) then [c.image.value] else []
  }

  /** A missing credential is a 400 "Password not found.", not a 404; another
      owner's credential is a 401. */
  lemma EditRejections(c: Credential, caller: int, name: string, nameTaken: bool)
    ensures EditCheck(None, caller, name, nameTaken) == Some(ValidationError(Some(EditNotFoundMessage)))
    ensures ErrorResponse(EditCheck(None, caller, name, nameTaken).value).status == BadRequest
    ensures c.owner != caller ==>
      EditCheck(Some(c), caller, name, nameTaken) == Some(UnauthorizedError(Some(EditForbiddenMessage))) &&
      ErrorResponse(EditCheck(Some(c), caller, name, nameTaken).value).status == Unauthorized
  {
  }

  /** A rename that only changes letter case never meets the name check. */
  lemma CaseOnlyRenamePasses(c: Credential, name: string, nameTaken: bool)
    requires Text.ToLower(name) == Text.ToLower(c.name)
    ensures EditCheck(Some(c), c.owner, name, nameTaken) == None
  {
  }

  /** The edited credential holds questions exactly when the question step
      reported success on a non-empty list: a repeated question, a failed insert
      or an absent or empty list all leave it with none. */
  lemma EditedQuestionsIffQuestionStepPassed(id: int, cipher: Crypto.Cipher, questions: Option<seq<QuestionAnswer>>, questionsFail: bool)
    ensures QuestionsAfterEdit(id, cipher, questions, questionsFail) != [] <==>
      HasQuestions(questions) && EditOutcome(questions, questionsFail) == Pass
    ensures EditOutcome(questions, questionsFail) == Fail(ValidationError(Some(UniqueQuestionsMessage))) ==>
      QuestionsAfterEdit(id, cipher, questions, questionsFail) == []
  {
  }

  /** A rename that keeps every owner's names distinct after lower-casing. */
  lemma RenameKeepsNamesUnique(records: map<int, Credential>, id: int, c: Credential, matches: (string, string) -> bool)
    requires NamesUniqueIgnoringCase(records) && MatchesIgnoringCase(matches)
    requires id in records && c.owner == records[id].owner
    requires Text.ToLower(c.name) != Text.ToLower(records[id].name) ==>
      forall j :: j in records && records[j].owner == c.owner ==> !matches(records[j].name, c.name)
    ensures NamesUniqueIgnoringCase(records[id := c])
  {
  }

  /** The changing half of editPassword, once its checks have passed: remove the
      replaced image, overwrite the credential, drop its questions, and only then
      check and insert the new ones. */
  method ApplyEdit(store: CredentialStore, cipher: Crypto.Cipher, passwordId: int, current: Credential,
                   name: string, password: string, questions: Option<seq<QuestionAnswer>>,
                   upload: Option<string>, questionsFail: bool)
    returns (r: Outcome<Error>)
    requires store.Valid() && passwordId in store.records && store.records[passwordId] == current
    modifies store
    ensures store.Valid() && store.nextId == old(store.nextId)
    ensures store.records == old(store.records)[passwordId := EditedCredential(current, passwordId, cipher, name, password,
                                                                              upload, questions, questionsFail)]
    ensures store.removedImages == old(store.removedImages) + ReplacedImage(current, upload)
    ensures r == EditOutcome(questions, questionsFail)
  {
    var imagePath := ImagePath(upload);
    var encrypted := cipher.encrypt(password);
    if Present(imagePath) && Present(current.image) {
      store.RemoveImage(current.image.value);
    }
    store.UpdatePassword(passwordId, name, encrypted, imagePath);
    store.DeleteSecurityQuestions(passwordId);
    if HasQuestions(questions) {
      if !QuestionTextsUnique(questions.value) {
        return Fail(ValidationError(Some(UniqueQuestionsMessage)));
      }
      var encryptedQuestions := EncryptAnswers(cipher, questions.value);
      var outcome := store.AddSecurityQuestions(passwordId, encryptedQuestions, questionsFail);
      if !questionsFail {
        assert [] + QuestionRecords(passwordId, encryptedQuestions) == QuestionRecords(passwordId, encryptedQuestions);
      }
      if outcome.Fail? {
        return outcome;
      }
    }
    return Pass;
  }

  method EditPassword(store: CredentialStore, cipher: Crypto.Cipher, caller: int, passwordId: int,
                      name: string, password: string, questions: Option<seq<QuestionAnswer>>,
                      upload: Option<string>, questionsFail: bool)
    returns (r: Outcome<Error>)
    requires store.Valid()
    modifies store
    ensures store.Valid() && store.nextId == old(store.nextId)
    ensures var check := EditCheck(old(store.GetPasswordById(passwordId, caller)), caller, name, old(store.NameExists(name, caller)));
      check.Some? ==> r == Fail(check.value) && store.records == old(store.records) && store.removedImages == old(store.removedImages)
    ensures var existing := old(store.GetPasswordById(passwordId, caller));
      EditCheck(existing, caller, name, old(store.NameExists(name, caller))).None? ==>
        && existing.Some?
        && store.records == old(store.records)[passwordId := EditedCredential(existing.value, passwordId, cipher, name, password,
                                                                              upload, questions, questionsFail)]
        && store.removedImages == old(store.removedImages) + ReplacedImage(existing.value, upload)
        && r == EditOutcome(questions, questionsFail)
    ensures store.OwnedIds(caller) == old(store.OwnedIds(caller))
    ensures MatchesIgnoringCase(store.nameMatches) && old(NamesUniqueIgnoringCase(store.records)) ==>
      NamesUniqueIgnoringCase(store.records)
  {
    ghost var before := store.records;
    var existing := store.GetPasswordById(passwordId, caller);
    if existing.None? {
      return Fail(ValidationError(Some(EditNotFoundMessage)));
    }
    var current := existing.value;
    if current.owner != caller {
      return Fail(UnauthorizedError(Some(EditForbiddenMessage)));
    }
    if Text.ToLower(name) != Text.ToLower(current.name) {
      if store.NameExists(name, caller) {
        return Fail(ValidationError(Some(EditNameTakenMessage)));
      }
    }
    r := ApplyEdit(store, cipher, passwordId, current, name, password, questions, upload, questionsFail);
    ghost var edited := store.records[passwordId];
    OwnedBelowUpdate(before, passwordId, edited, caller, store.nextId);
    if MatchesIgnoringCase(store.nameMatches) && NamesUniqueIgnoringCase(before) {
      RenameKeepsNamesUnique(before, passwordId, edited, store.nameMatches);
    }
  }

  // ---------------------------------------------------------------------------
  // deletePasswordsBulk
  // ---------------------------------------------------------------------------

  function BulkNotFoundMessage(id: int): string {
    "Password with id " + Text.IntToString(id) + " not found."
  }

  function BulkForbiddenMessage(id: int): string {
    "You are not authorized to delete password with id " + Text.IntToString(id) + "."
  }

  /** Why the bulk delete stops at `id`, if it does. */
  function BulkRejection(records: map<int, Credential>, scoped: bool, caller: int, id: int): Option<Error> {
    var found := Lookup(records, scoped, caller, id);
    if found.None? then Some(ValidationError(Some(BulkNotFoundMessage(id))))
    else if found.value.owner != caller then Some(UnauthorizedError(Some(BulkForbiddenMessage(id))))
    else None
  }

  /** One leading "/" is dropped, no more. */
  function StripLeadingSlash(p: string): (r: string)
    ensures |p| > 0 && p[0] == '/' ==> r == p[1..]
    ensures !(|p| > 0 && p[0] == '/') ==> r == p
  {
    if |p| > 0 && p[0] == '/' then p[1..] else p
  }

  /** The removal the bulk delete asks for before deleting `c`. */
  function RemovedImagesOf(c: Credential): seq<string> {
    if Present(c.image) then [StripLeadingSlash(c.image.value)] else []
  }

  /** The effect of deleting `ids` in order: what is left, the ids deleted (in
      order), the image removals asked for, and the error that stopped it. */
  datatype BulkRun = BulkRun(remaining: map<int, Credential>, deleted: seq<int>, removed: seq<string>, failure: Option<Error>)

  function BulkDelete(records: map<int, Credential>, scoped: bool, caller: int, ids: seq<int>): BulkRun
    decreases |ids|
  {
    if ids == [] then BulkRun(records, [], [], None)
    else
      var rejection := BulkRejection(records, scoped, caller, ids[0]);
      if rejection.Some? then BulkRun(records, [], [], rejection)
      else
        var rest := BulkDelete(records - {ids[0]}, scoped, caller, ids[1..]);
        BulkRun(rest.remaining, [ids[0]] + rest.deleted, RemovedImagesOf(records[ids[0]]) + rest.removed, rest.failure)
  }

  function Prepend(deleted: seq<int>, removed: seq<string>, run: BulkRun): BulkRun {
    BulkRun(run.remaining, deleted + run.deleted, removed + run.removed, run.failure)
  }

  /** One id of the loop: a rejection ends the run where it stands; otherwise the
      id is deleted and the run goes on with the rest. */
  lemma BulkDeleteStep(records: map<int, Credential>, scoped: bool, caller: int, ids: seq<int>,
                       deleted: seq<int>, removed: seq<string>)
    requires ids != []
    ensures var rejection := BulkRejection(records, scoped, caller, ids[0]);
      rejection.Some? ==>
        Prepend(deleted, removed, BulkDelete(records, scoped, caller, ids)) == BulkRun(records, deleted, removed, rejection)
    ensures BulkRejection(records, scoped, caller, ids[0]).None? ==>
      ids[0] in records &&
      Prepend(deleted, removed, BulkDelete(records, scoped, caller, ids)) ==
        Prepend(deleted + [ids[0]], removed + RemovedImagesOf(records[ids[0]]),
                BulkDelete(records - {ids[0]}, scoped, caller, ids[1..]))
  {
    if BulkRejection(records, scoped, caller, ids[0]).None? {
      var rest := BulkDelete(records - {ids[0]}, scoped, caller, ids[1..]);
      assert deleted + ([ids[0]] + rest.deleted) == (deleted + [ids[0]]) + rest.deleted;
      assert removed + (RemovedImagesOf(records[ids[0]]) + rest.removed) ==
             (removed + RemovedImagesOf(records[ids[0]])) + rest.removed;
    }
  }

  /** The deleted ids are a prefix of the request, all of it exactly when nothing
      failed, and the store keeps everything else. */
  lemma {:induction false} BulkDeletePrefix(records: map<int, Credential>, scoped: bool, caller: int, ids: seq<int>)
    ensures var run := BulkDelete(records, scoped, caller, ids);
      && |run.deleted| <= |ids|
      && run.deleted == ids[..|run.deleted|]
      && (run.failure.None? <==> |run.deleted| == |ids|)
      && run.remaining == records - (set x | x in run.deleted)
    decreases |ids|
  {
    if ids != [] && BulkRejection(records, scoped, caller, ids[0]).None? {
      var rest := BulkDelete(records - {ids[0]}, scoped, caller, ids[1..]);
      BulkDeletePrefix(records - {ids[0]}, scoped, caller, ids[1..]);
      assert ids[..|rest.deleted| + 1] == [ids[0]] + ids[1..][..|rest.deleted|];
      assert (set x | x in [ids[0]] + rest.deleted) == {ids[0]} + (set x | x in rest.deleted);
    }
  }

  /** Only the caller's credentials are ever deleted. */
  lemma {:induction false} BulkDeleteOnlyOwn(records: map<int, Credential>, scoped: bool, caller: int, ids: seq<int>)
    ensures forall x :: x in BulkDelete(records, scoped, caller, ids).deleted ==> x in records && records[x].owner == caller
    decreases |ids|
  {
    if ids != [] && BulkRejection(records, scoped, caller, ids[0]).None? {
      BulkDeleteOnlyOwn(records - {ids[0]}, scoped, caller, ids[1..]);
    }
  }

  /** A failed run stopped at the first id not deleted, for the reason that id has
      in the store as the earlier deletions left it. */
  lemma {:induction false} BulkDeleteStopsAtFirstRejection(records: map<int, Credential>, scoped: bool, caller: int, ids: seq<int>)
    ensures var run := BulkDelete(records, scoped, caller, ids);
      run.failure.Some? ==>
        |run.deleted| < |ids| &&
        run.failure == BulkRejection(run.remaining, scoped, caller, ids[|run.deleted|])
    decreases |ids|
  {
    if ids != [] && BulkRejection(records, scoped, caller, ids[0]).None? {
      BulkDeleteStopsAtFirstRejection(records - {ids[0]}, scoped, caller, ids[1..]);
    }
  }

  /** With an owner-scoped lookup a foreign id reads as missing: the run can then
      only fail with 400, never with 401. */
  lemma {:induction false} ScopedBulkDeleteFailsWith400(records: map<int, Credential>, caller: int, ids: seq<int>)
    ensures var run := BulkDelete(records, true, caller, ids);
      run.failure.Some? ==> ErrorResponse(run.failure.value).status == BadRequest
    decreases |ids|
  {
    if ids != [] && BulkRejection(records, true, caller, ids[0]).None? {
      ScopedBulkDeleteFailsWith400(records - {ids[0]}, caller, ids[1..]);
    }
  }

  /** Naming one owned id twice deletes it once and then fails on the repeat,
      keeping the deletion. */
  lemma RepeatedIdFailsAfterDeleting(records: map<int, Credential>, scoped: bool, caller: int, id: int)
    requires id in records && records[id].owner == caller && !Present(records[id].image)
    ensures BulkDelete(records, scoped, caller, [id, id]) ==
      BulkRun(records - {id}, [id], [], Some(ValidationError(Some(BulkNotFoundMessage(id)))))
  {
    assert [id, id][1..] == [id];
    assert [id][1..] == [];
  }

  method DeletePasswordsBulk(store: CredentialStore, caller: int, ids: Option<seq<int>>)
    returns (r: Result<seq<int>, Error>)
    requires store.Valid()
    modifies store
    ensures store.Valid() && store.nextId == old(store.nextId)
    ensures ids.None? || ids.value == [] ==>
      r == Err(ValidationError(Some(BulkIdsMessage))) &&
      store.records == old(store.records) && store.removedImages == old(store.removedImages)
    ensures ids.Some? && ids.value != [] ==>
      var run := BulkDelete(old(store.records), store.scopedLookup, caller, ids.value);
      && store.records == run.remaining
      && store.removedImages == old(store.removedImages) + run.removed
      && r == (if run.failure.Some? then Err(run.failure.value) else Ok(run.deleted))
  {
    if ids.None? || |ids.value| == 0 {
      return Err(ValidationError(Some(BulkIdsMessage)));
    }
    var list := ids.value;
    var deletedResults: seq<int> := [];
    ghost var removed: seq<string> := [];
    var i := 0;
    while i < |list|
      invariant 0 <= i <= |list|
      invariant store.Valid() && store.nextId == old(store.nextId)
      invariant store.removedImages == old(store.removedImages) + removed
      invariant Prepend(deletedResults, removed, BulkDelete(store.records, store.scopedLookup, caller, list[i..])) ==
        BulkDelete(old(store.records), store.scopedLookup, caller, list)
      decreases |list| - i
    {
      var passwordId := list[i];
      assert list[i..][0] == passwordId && list[i..][1..] == list[i + 1..];
      BulkDeleteStep(store.records, store.scopedLookup, caller, list[i..], deletedResults, removed);
      var found := store.GetPasswordById(passwordId, caller);
      if found.None? {
        return Err(ValidationError(Some(BulkNotFoundMessage(passwordId))));
      }
      var password := found.value;
      if password.owner != caller {
        return Err(UnauthorizedError(Some(BulkForbiddenMessage(passwordId))));
      }
      if Present(password.image) {
        store.RemoveImage(StripLeadingSlash(password.image.value));
      }
      removed := removed + RemovedImagesOf(password);
      var data := store.DeletePasswordById(passwordId);
      deletedResults := deletedResults + [data];
      i := i + 1;
    }
    assert list[i..] == [];
    assert deletedResults + [] == deletedResults && removed + [] == removed;
    return Ok(deletedResults);
  }

  // ---------------------------------------------------------------------------
  // decryptPassword and exportPasswordsJson
  // ---------------------------------------------------------------------------

  /** decryptPassword: the plaintext, or the decryption error. */
  function DecryptPassword(cipher: Crypto.Cipher, password: string): (r: Result<string, Error>)
    ensures r.Err? ==> r.error == DecryptFailure
  {
    match cipher.decrypt(password)
    case Some(p) => Ok(p)
    case None => Err(DecryptFailure)
  }

  lemma DecryptPasswordRoundTrip(cipher: Crypto.Cipher, plaintext: string)
    requires Crypto.Sound(cipher)
    ensures DecryptPassword(cipher, cipher.encrypt(plaintext)) == Ok(plaintext)
  {
  }

  datatype ExportQuestion = ExportQuestion(question: string, answer: string)

  /** One exported credential; the timestamps are not part of this model. */
  datatype ExportEntry = ExportEntry(id: int, name: string, password: string, securityQuestions: seq<ExportQuestion>)

  const ExportPageSize := 10000

  /** `getPasswords(userId, 1, 10000)`: the first page of the listing. */
  function FirstPage(ids: seq<int>): (p: seq<int>)
    ensures |p| == if |ids| <= ExportPageSize then |ids| else ExportPageSize
    ensures forall k :: 0 <= k < |p| ==> p[k] == ids[k]
  {
    if |ids| <= ExportPageSize then ids else ids[..ExportPageSize]
  }

  /** `s ? decrypt(s) : ''` */
  function DecryptOrEmpty(cipher: Crypto.Cipher, s: string): Option<string> {
    if s == "" then Some("") else cipher.decrypt(s)
  }

  function ExportQuestions(cipher: Crypto.Cipher, qs: seq<StoredQuestion>): Option<seq<ExportQuestion>>
    decreases |qs|
  {
    if qs == [] then Some([])
    else
      match DecryptOrEmpty(cipher, qs[0].answer)
      case None => None
      case Some(a) =>
        match ExportQuestions(cipher, qs[1..])
        case None => None
        case Some(rest) => Some([ExportQuestion(qs[0].question, a)] + rest)
  }

  function ExportEntryOf(cipher: Crypto.Cipher, id: int, c: Credential): Option<ExportEntry> {
    match DecryptOrEmpty(cipher, c.secret)
    case None => None
    case Some(p) =>
      match ExportQuestions(cipher, c.questions)
      case None => None
      case Some(qs) => Some(ExportEntry(id, c.name, p, qs))
  }

  /** The export of the credentials `ids`, failing as a whole when any one fails. */
  function ExportAll(cipher: Crypto.Cipher, records: map<int, Credential>, ids: seq<int>): Option<seq<ExportEntry>>
    requires forall k :: 0 <= k < |ids| ==> ids[k] in records
    decreases |ids|
  {
    if ids == [] then Some([])
    else
      var last := ids[|ids| - 1];
      match ExportAll(cipher, records, ids[..|ids| - 1])
      case None => None
      case Some(es) =>
        match ExportEntryOf(cipher, last, records[last])
        case None => None
        case Some(e) => Some(es + [e])
  }

  /** The export succeeds exactly when every credential's entry does, and then
      lists those entries in the listing's order. */
  lemma {:induction false} ExportAllEntrywise(cipher: Crypto.Cipher, records: map<int, Credential>, ids: seq<int>)
    requires forall k :: 0 <= k < |ids| ==> ids[k] in records
    ensures ExportAll(cipher, records, ids).Some? <==>
      forall k :: 0 <= k < |ids| ==> ExportEntryOf(cipher, ids[k], records[ids[k]]).Some?
    ensures ExportAll(cipher, records, ids).Some? ==>
      var es := ExportAll(cipher, records, ids).value;
      |es| == |ids| && forall k :: 0 <= k < |ids| ==> Some(es[k]) == ExportEntryOf(cipher, ids[k], records[ids[k]])
    decreases |ids|
  {
    if ids != [] {
      var init := ids[..|ids| - 1];
      ExportAllEntrywise(cipher, records, init);
      assert forall k :: 0 <= k < |init| ==> init[k] == ids[k];
    }
  }

  /** A failure within a prefix fails the whole export. */
  lemma {:induction false} ExportAllFailsByPrefix(cipher: Crypto.Cipher, records: map<int, Credential>, ids: seq<int>, n: nat)
    requires forall k :: 0 <= k < |ids| ==> ids[k] in records
    requires n <= |ids| && ExportAll(cipher, records, ids[..n]) == None
    ensures ExportAll(cipher, records, ids) == None
    decreases |ids|
  {
    if n < |ids| {
      var init := ids[..|ids| - 1];
      assert init[..n] == ids[..n];
      ExportAllFailsByPrefix(cipher, records, init, n);
    } else {
      assert ids[..n] == ids;
    }
  }

  function Exported(qs: seq<QuestionAnswer>): seq<ExportQuestion> {
    seq(|qs|, i requires 0 <= i < |qs| => ExportQuestion(qs[i].question, qs[i].answer))
  }

  /** The answers stored by createPassword or editPassword come back as the
      submitted plaintexts, in order. */
  lemma {:induction false} ExportedAnswersArePlaintexts(cipher: Crypto.Cipher, id: int, qs: seq<QuestionAnswer>)
    requires Crypto.Sound(cipher)
    ensures ExportQuestions(cipher, QuestionRecords(id, EncryptAnswers(cipher, qs))) == Some(Exported(qs))
    decreases |qs|
  {
    if qs != [] {
      var stored := QuestionRecords(id, EncryptAnswers(cipher, qs));
      assert stored[1..] == QuestionRecords(id, EncryptAnswers(cipher, qs[1..]));
      ExportedAnswersArePlaintexts(cipher, id, qs[1..]);
      assert Exported(qs) == [ExportQuestion(qs[0].question, qs[0].answer)] + Exported(qs[1..]);
    }
  }

  /** A credential as createPassword stores it exports as what was submitted. */
  lemma CreatedCredentialExportsPlaintext(cipher: Crypto.Cipher, id: int, owner: int, name: string, password: string,
                                          image: Option<string>, qs: seq<QuestionAnswer>)
    requires Crypto.Sound(cipher)
    ensures ExportEntryOf(cipher, id, Credential(owner, name, cipher.encrypt(password), image, QuestionRecords(id, EncryptAnswers(cipher, qs)))) ==
      Some(ExportEntry(id, name, password, Exported(qs)))
  {
    ExportedAnswersArePlaintexts(cipher, id, qs);
  }

  /** The export's single page holds the whole listing of an owner within the quota. */
  lemma ExportCoversOwnerWithinQuota(ids: seq<int>)
    requires |ids| <= QuotaLimit
    ensures FirstPage(ids) == ids
  {
  }

  /** exportPasswordsJson: the entries of the first page of the caller's listing,
      or the decryption error as soon as one entry fails. */
  method ExportPasswordsJson(store: CredentialStore, cipher: Crypto.Cipher, caller: int)
    returns (r: Result<seq<ExportEntry>, Error>)
    ensures var all := ExportAll(cipher, store.records, FirstPage(store.OwnedIds(caller)));
      (all.Some? ==> r == Ok(all.value)) && (all.None? ==> r == Err(DecryptFailure))
  {
    var ids := FirstPage(store.OwnedIds(caller));
    var entries: seq<ExportEntry> := [];
    for i := 0 to |ids|
      invariant ExportAll(cipher, store.records, ids[..i]) == Some(entries)
    {
      var id := ids[i];
      var entry := ExportEntryOf(cipher, id, store.records[id]);
      assert ids[..i + 1][..i] == ids[..i];
      if entry.None? {
        ExportAllFailsByPrefix(cipher, store.records, ids, i + 1);
        return Err(DecryptFailure);
      }
      entries := entries + [entry.value];
    }
    assert ids[..|ids|] == ids;
    return Ok(entries);
  }
}
