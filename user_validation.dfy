/** The account schemas (backend/src/validation/user-validation.ts) as predicates
    over a request body, modelled as the map from its keys to its string values. */
module UserValidation {
  import opened Errors

  type Body = map<string, string>

  predicate LengthBetween(b: Body, key: string, min: nat, max: nat) {
    key in b && min <= |b[key]| <= max
  }

  const ProfileKeys: set<string> := {"userName", "firstName", "lastName"}
  const PasswordChangeKeys: set<string> := {"currentPassword", "newPassword", "confirmNewPassword"}

  /** createUserSchema: four required fields; other keys are stripped, not rejected. */
  predicate CreateUserAccepts(b: Body) {
    && LengthBetween(b, "userName", 1, 50)
    && LengthBetween(b, "password", 1, 256)
    && LengthBetween(b, "firstName", 1, 50)
    && LengthBetween(b, "lastName", 1, 50)
  }

  /** editUserProfileSchema: strict, so no key outside the three profile keys. */
  predicate EditProfileAccepts(b: Body) {
    && b.Keys <= ProfileKeys
    && LengthBetween(b, "userName", 1, 50)
    && LengthBetween(b, "firstName", 1, 50)
    && LengthBetween(b, "lastName", 1, 50)
  }

  /** The strict object part of editUserPasswordSchema. */
  predicate EditPasswordShape(b: Body) {
    && b.Keys <= PasswordChangeKeys
    && LengthBetween(b, "currentPassword", 1, 256)
    && LengthBetween(b, "newPassword", 1, 256)
    && LengthBetween(b, "confirmNewPassword", 1, 256)
  }

  const MismatchIssue := Issue([Key("confirmNewPassword")], "New password and confirmation do not match")

  /** The refinement of editUserPasswordSchema, run once the object part passed. */
  function EditPasswordRefinementIssues(b: Body): (issues: seq<Issue>)
    requires EditPasswordShape(b)
  {
    if b["newPassword"] != b["confirmNewPassword"] then [MismatchIssue] else []
  }

  predicate EditPasswordAccepts(b: Body) {
    EditPasswordShape(b) && EditPasswordRefinementIssues(b) == []
  }

  /** editUserSchema = z.union([editUserProfileSchema, editUserPasswordSchema]) */
  predicate EditUserAccepts(b: Body) {
    EditProfileAccepts(b) || EditPasswordAccepts(b)
  }

  /** login = createUserSchema without firstName and lastName. */
  predicate LoginAccepts(b: Body) {
    LengthBetween(b, "userName", 1, 50) && LengthBetween(b, "password", 1, 256)
  }

  /** A strict schema accepts only bodies with exactly its keys. */
  lemma StrictSchemasFixTheKeys(b: Body)
    ensures EditProfileAccepts(b) ==> b.Keys == ProfileKeys
    ensures EditPasswordAccepts(b) ==> b.Keys == PasswordChangeKeys
  {
  }

  /** A profile body with any extra key, such as a password, is rejected. */
  lemma ExtraKeyRejected(b: Body, k: string)
    requires k in b && k !in ProfileKeys
    ensures !EditProfileAccepts(b)
  {
  }

  /** The two branches of editUserSchema never both accept: a body is a profile edit
      or a password change, never both. */
  lemma EditUserBranchesDisjoint(b: Body)
    ensures !(EditProfileAccepts(b) && EditPasswordAccepts(b))
    ensures EditUserAccepts(b) <==>
      (b.Keys == ProfileKeys && EditProfileAccepts(b)) || (b.Keys == PasswordChangeKeys && EditPasswordAccepts(b))
  {
    StrictSchemasFixTheKeys(b);
  }

  /** A password change whose confirmation differs fails, with its one issue on
      confirmNewPassword, and editUserSchema as a whole rejects it. */
  lemma MismatchedConfirmationRejected(b: Body)
    requires EditPasswordShape(b) && b["newPassword"] != b["confirmNewPassword"]
    ensures EditPasswordRefinementIssues(b) == [MismatchIssue]
    ensures MismatchIssue.path == [Key("confirmNewPassword")]
    ensures !EditPasswordAccepts(b) && !EditUserAccepts(b)
  {
    assert "currentPassword" in b && "currentPassword" !in ProfileKeys;
  }

  /** Every body that may create an account may also log in; logging in needs no names. */
  lemma CreateUserImpliesLogin(b: Body)
    ensures CreateUserAccepts(b) ==> LoginAccepts(b)
  {
  }

  lemma LoginNeedsNoNames()
    ensures var b := map["userName" := "alice", "password" := "Secret123!"];
      LoginAccepts(b) && !CreateUserAccepts(b)
  {
    var b := map["userName" := "alice", "password" := "Secret123!"];
    assert "firstName" !in b;
  }

  /** Every length bound is inclusive at both ends, and an empty value is rejected. */
  lemma UserNameBounds(b: Body)
    requires "password" in b && 1 <= |b["password"]| <= 256
    ensures "userName" in b && |b["userName"]| == 50 ==> LoginAccepts(b)
    ensures "userName" in b && (|b["userName"]| == 0 || |b["userName"]| == 51) ==> !LoginAccepts(b)
  {
  }
}
