/** The credential store behind the password handlers: the `passwords` rows with
    their security questions, reached through the two insert helpers of
    backend/src/models/password-model.ts and through the queries and updates the
    handlers call (getPasswordCount, checkExistingPassword, getPasswordById,
    updatePassword, deleteSecurityQuestions, deletePasswordById, getPasswords),
    whose bodies are not part of this model and are given their plainest reading
    on the map of records. */
module PasswordModel {
  import opened Wrappers
  import opened Errors
  import opened PasswordValidation
  import Text

  /** A `securityQuestions` row. */
  datatype StoredQuestion = StoredQuestion(passwordId: int, question: string, answer: string)

  /** One stored credential: its owner, its name, its ciphertext, its image path
      (null when none was uploaded) and its security questions in insertion order. */
  datatype Credential = Credential(
    owner: int,
    name: string,
    secret: string,
    image: Option<string>,
    questions: seq<StoredQuestion>)

  /** What addPassword returns: the new row's id, name and image. */
  datatype NewPassword = NewPassword(id: int, name: string, image: Option<string>)

  /** The rows addSecurityQuestions inserts: one per question, in order, each
      under `passwordId`, copying the question and the answer. */
  function QuestionRecords(passwordId: int, qs: seq<QuestionAnswer>): (r: seq<StoredQuestion>)
    ensures |r| == |qs|
    ensures forall i :: 0 <= i < |qs| ==>
      r[i].passwordId == passwordId && r[i].question == qs[i].question && r[i].answer == qs[i].answer
    decreases |qs|
  {
    if qs == [] then []
    else [StoredQuestion(passwordId, qs[0].question, qs[0].answer)] + QuestionRecords(passwordId, qs[1..])
  }

  predicate QuestionsBelongTo(qs: seq<StoredQuestion>, id: int) {
    forall i :: 0 <= i < |qs| ==> qs[i].passwordId == id
  }

  /** The ids below `n` of the credentials `owner` holds, in ascending order: the
      order in which getPasswords lists them. */
  function OwnedBelow(records: map<int, Credential>, owner: int, n: int): (ids: seq<int>)
    ensures forall k :: 0 <= k < |ids| ==> ids[k] in records && records[ids[k]].owner == owner && ids[k] < n
    ensures forall k, l :: 0 <= k < l < |ids| ==> ids[k] < ids[l]
    decreases n
  {
    if n <= 0 then []
    else OwnedBelow(records, owner, n - 1) + (if n - 1 in records && records[n - 1].owner == owner then [n - 1] else [])
  }

  /** getPasswordById with its owner filter made explicit: with `scoped` a
      credential of another owner reads as absent. */
  function Lookup(records: map<int, Credential>, scoped: bool, caller: int, id: int): (r: Option<Credential>)
    ensures r.Some? ==> id in records && r.value == records[id]
    ensures r.None? <==> id !in records || (scoped && records[id].owner != caller)
  {
    if id in records && !(scoped && records[id].owner != caller) then Some(records[id]) else None
  }

  /** No owner holds two credentials whose names agree after lower-casing. */
  ghost predicate NamesUniqueIgnoringCase(records: map<int, Credential>) {
    forall i, j :: i in records && j in records && i != j && records[i].owner == records[j].owner ==>
      Text.ToLower(records[i].name) != Text.ToLower(records[j].name)
  }

  /** A name relation that is lower-case equality. */
  ghost predicate MatchesIgnoringCase(matches: (string, string) -> bool) {
    forall a, b :: matches(a, b) == (Text.ToLower(a) == Text.ToLower(b))
  }

  /** Every id below `n`, and only those, that `owner` holds is listed. */
  lemma {:induction false} OwnedBelowComplete(records: map<int, Credential>, owner: int, n: int, x: int)
    ensures x in OwnedBelow(records, owner, n) <==> 0 <= x < n && x in records && records[x].owner == owner
    decreases n
  {
    if n > 0 {
      OwnedBelowComplete(records, owner, n - 1, x);
    }
  }

  /** The listing below `n` depends only on which ids below `n` the owner holds. */
  lemma {:induction false} OwnedBelowAgree(r1: map<int, Credential>, r2: map<int, Credential>, owner: int, n: int)
    requires forall i :: 0 <= i < n ==> ((i in r1 && r1[i].owner == owner) <==> (i in r2 && r2[i].owner == owner))
    ensures OwnedBelow(r1, owner, n) == OwnedBelow(r2, owner, n)
    decreases n
  {
    if n > 0 {
      OwnedBelowAgree(r1, r2, owner, n - 1);
    }
  }

  /** A credential inserted at the next free id joins its owner's listing at the
      end, and no other owner's listing changes. */
  lemma OwnedBelowInsert(records: map<int, Credential>, n: int, c: Credential, owner: int)
    requires n >= 0
    requires forall id :: id in records ==> id < n
    ensures OwnedBelow(records[n := c], owner, n + 1) ==
      OwnedBelow(records, owner, n) + (if c.owner == owner then [n] else [])
  {
    OwnedBelowAgree(records[n := c], records, owner, n);
  }

  /** Replacing a credential by one with the same owner changes no listing. */
  lemma OwnedBelowUpdate(records: map<int, Credential>, id: int, c: Credential, owner: int, n: int)
    requires id in records && records[id].owner == c.owner
    ensures OwnedBelow(records[id := c], owner, n) == OwnedBelow(records, owner, n)
  {
    OwnedBelowAgree(records[id := c], records, owner, n);
  }

  /** The credential store. `records` maps id to credential; `nextId` is the id the
      next insert receives (ids are never reused); `removedImages` lists, in order,
      the image paths the handlers asked the file system to remove.
      `scopedLookup` says whether getPasswordById filters by owner and `nameMatches`
      is the name relation of checkExistingPassword; neither is fixed by the
      handlers, so the model keeps both open. */
  class CredentialStore {
    var records: map<int, Credential>
    var nextId: int
    var removedImages: seq<string>
    const scopedLookup: bool
    const nameMatches: (string, string) -> bool

    ghost predicate Valid()
      reads this
    {
      && nextId >= 1
      && (forall id :: id in records ==> 1 <= id < nextId)
      && (forall id :: id in records ==> QuestionsBelongTo(records[id].questions, id))
    }

    constructor (scopedLookup: bool, nameMatches: (string, string) -> bool)
      ensures Valid()
      ensures records == map[] && nextId == 1 && removedImages == []
      ensures this.scopedLookup == scopedLookup && this.nameMatches == nameMatches
    {
      records := map[];
      nextId := 1;
      removedImages := [];
      this.scopedLookup := scopedLookup;
      this.nameMatches := nameMatches;
    }

    /** The owner's credential ids in listing order (getPasswords). */
    function OwnedIds(owner: int): (ids: seq<int>)
      reads this
      ensures forall k :: 0 <= k < |ids| ==> ids[k] in records && records[ids[k]].owner == owner
    {
      OwnedBelow(records, owner, nextId)
    }

    /** getPasswordCount */
    function PasswordCount(owner: int): nat
      reads this
    {
      |OwnedIds(owner)|
    }

    /** checkExistingPassword */
    predicate NameExists(name: string, owner: int)
      reads this
    {
      exists id :: id in records && records[id].owner == owner && nameMatches(records[id].name, name)
    }

    /** getPasswordById */
    function GetPasswordById(id: int, caller: int): Option<Credential>
      reads this
    {
      Lookup(records, scopedLookup, caller, id)
    }

    /** addPassword: inserts exactly the given fields under the next id, with no
        questions, and returns id, name and image; a failed insert surfaces as a
        500 with a fixed message and stores nothing. */
    method AddPassword(name: string, password: string, image: Option<string>, userId: int, insertFails: bool)
      returns (r: Result<NewPassword, Error>)
      requires Valid()
      modifies this
      ensures Valid()
      ensures removedImages == old(removedImages)
      ensures insertFails ==>
        r == Err(NewAppError("Error adding password", InternalServerError)) &&
        records == old(records) && nextId == old(nextId)
      ensures !insertFails ==>
        r == Ok(NewPassword(old(nextId), name, image)) &&
        records == old(records)[old(nextId) := Credential(userId, name, password, image, [])] &&
        nextId == old(nextId) + 1
    {
      if insertFails {
        return Err(NewAppError("Error adding password", InternalServerError));
      }
      var id := nextId;
      records := records[id := Credential(userId, name, password, image, [])];
      nextId := nextId + 1;
      return Ok(NewPassword(id, name, image));
    }

    /** addSecurityQuestions: appends QuestionRecords(passwordId, qs) to the
        credential's questions. A failed insert, including one whose passwordId
        has no credential to reference, surfaces as a 500 and stores nothing. */
    method AddSecurityQuestions(passwordId: int, qs: seq<QuestionAnswer>, insertFails: bool)
      returns (r: Outcome<Error>)
      requires Valid()
      modifies this
      ensures Valid()
      ensures nextId == old(nextId) && removedImages == old(removedImages)
      ensures insertFails || passwordId !in old(records) ==>
        r == Fail(NewAppError("Error adding security questions", InternalServerError)) &&
        records == old(records)
      ensures !insertFails && passwordId in old(records) ==>
        r == Pass &&
        records == old(records)[passwordId := old(records)[passwordId].(
          questions := old(records)[passwordId].questions + QuestionRecords(passwordId, qs))]
    {
      if insertFails || passwordId !in records {
        return Fail(NewAppError("Error adding security questions", InternalServerError));
      }
      var c := records[passwordId];
      records := records[passwordId := c.(questions := c.questions + QuestionRecords(passwordId, qs))];
      r := Pass;
    }

    /** updatePassword: overwrites name and ciphertext, and the image when one is given. */
    method UpdatePassword(id: int, name: string, secret: string, image: Option<string>)
      requires Valid()
      modifies this
      ensures Valid()
      ensures nextId == old(nextId) && removedImages == old(removedImages)
      ensures id !in old(records) ==> records == old(records)
      ensures id in old(records) ==>
        records == old(records)[id := old(records)[id].(
          name := name, secret := secret, image := if image.Some? then image else old(records)[id].image)]
    {
      if id in records {
        var c := records[id];
        records := records[id := c.(name := name, secret := secret, image := if image.Some? then image else c.image)];
      }
    }

    /** deleteSecurityQuestions */
    method DeleteSecurityQuestions(id: int)
      requires Valid()
      modifies this
      ensures Valid()
      ensures nextId == old(nextId) && removedImages == old(removedImages)
      ensures id !in old(records) ==> records == old(records)
      ensures id in old(records) ==> records == old(records)[id := old(records)[id].(questions := [])]
    {
      if id in records {
        records := records[id := records[id].(questions := [])];
      }
    }

    /** deletePasswordById; the handler records what it returns, which is taken
        to be the id. */
    method DeletePasswordById(id: int) returns (deleted: int)
      requires Valid()
      modifies this
      ensures Valid()
      ensures nextId == old(nextId) && removedImages == old(removedImages)
      ensures records == old(records) - {id} && deleted == id
    {
      records := records - {id};
      deleted := id;
    }

    /** A request to the file system to remove an image; its failure is ignored. */
    method RemoveImage(path: string)
      modifies this
      ensures records == old(records) && nextId == old(nextId)
      ensures removedImages == old(removedImages) + [path]
    {
      removedImages := removedImages + [path];
    }
  }
}
