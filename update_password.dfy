/** The change-password card (frontend/src/components/UpdatePassword.tsx): it
    validates the raw values with the password-change schema, puts the three
    trimmed values in a FormData, hands it to `editUserProfile` always for the
    account with id 4, and offers the submit button only for an edited form with
    no request in flight. `editUserProfile` is not part of this model, so how the
    FormData travels is a parameter: the server (backend/src/app.ts:29) parses
    JSON bodies only. */
module UpdatePassword {
  import opened Wrappers
  import opened FormData
  import Text
  import opened UserValidation

  /** The user id every request is sent for, whoever is logged in. */
  const TargetUserId := 4

  datatype PasswordChangeValues = PasswordChangeValues(
    currentPassword: string,
    newPassword: string,
    confirmNewPassword: string)

  /** The values as a request body before trimming, which is what the form's own
      resolver validates. */
  function RawBody(v: PasswordChangeValues): Body {
    map["currentPassword" := v.currentPassword, "newPassword" := v.newPassword,
        "confirmNewPassword" := v.confirmNewPassword]
  }

  /** The three entries, in order, each value trimmed. */
  function ChangeEntries(v: PasswordChangeValues): seq<Entry> {
    [Entry("currentPassword", Text(Text.Trim(v.currentPassword))),
     Entry("newPassword", Text(Text.Trim(v.newPassword))),
     Entry("confirmNewPassword", Text(Text.Trim(v.confirmNewPassword)))]
  }

  /** onSubmit: the request's target and body. */
  method OnSubmit(v: PasswordChangeValues) returns (userId: int, entries: seq<Entry>)
    ensures userId == TargetUserId
    ensures entries == ChangeEntries(v)
  {
    entries := [];
    entries := entries + [Entry("currentPassword", Text(Text.Trim(v.currentPassword)))];
    entries := entries + [Entry("newPassword", Text(Text.Trim(v.newPassword)))];
    entries := entries + [Entry("confirmNewPassword", Text(Text.Trim(v.confirmNewPassword)))];
    userId := 4;
  }

  /** How `editUserProfile` sends the FormData: as a JSON object of its text
      fields, or as multipart/form-data, which no parser of the server reads. */
  datatype Transport = FieldsAsJson | Multipart

  /** The `req.body` that PATCH /api/users/:id validates
      (backend/src/routes/user-routes.ts:22): the text fields for a JSON body,
      nothing for a multipart one. */
  function ServerBody(t: Transport, entries: seq<Entry>): (body: Body)
    ensures t.FieldsAsJson? ==> forall k :: k in body ==> Get(entries, k) == Some(Text(body[k]))
    ensures t.Multipart? ==> body == map[]
  {
    match t
    case FieldsAsJson => TextBody(entries)
    case Multipart => map[]
  }

  /** Sent as JSON, the body the server reads has exactly the three password-change keys, each
      holding the trimmed value, and no value starts or ends with whitespace. */
  lemma SentBodyIsTrimmed(v: PasswordChangeValues)
    ensures ServerBody(Multipart, ChangeEntries(v)) == map[]
    ensures var body := ServerBody(FieldsAsJson, ChangeEntries(v));
      && body.Keys == PasswordChangeKeys
      && body["currentPassword"] == Text.Trim(v.currentPassword)
      && body["newPassword"] == Text.Trim(v.newPassword)
      && body["confirmNewPassword"] == Text.Trim(v.confirmNewPassword)
      && (forall k :: k in body ==> Text.Trim(body[k]) == body[k])
  {
    var e := ChangeEntries(v);
    assert TextBody(e[2..]) == map["confirmNewPassword" := Text.Trim(v.confirmNewPassword)];
    assert e[1..][1..] == e[2..];
    assert TextBody(e[1..]) == TextBody(e[2..])["newPassword" := Text.Trim(v.newPassword)];
    assert ServerBody(FieldsAsJson, e) == TextBody(e[1..])["currentPassword" := Text.Trim(v.currentPassword)];
    Text.TrimIdempotent(v.currentPassword);
    Text.TrimIdempotent(v.newPassword);
    Text.TrimIdempotent(v.confirmNewPassword);
  }

  /** editUserSchema accepts the request exactly when it travels as JSON, the
      trimmed values are each 1..256 characters long and the trimmed new password
      equals its trimmed confirmation; a multipart request is always refused. */
  lemma ServerVerdict(t: Transport, v: PasswordChangeValues)
    ensures EditUserAccepts(ServerBody(t, ChangeEntries(v))) <==>
      && t.FieldsAsJson?
      && 1 <= |Text.Trim(v.currentPassword)| <= 256
      && 1 <= |Text.Trim(v.newPassword)| <= 256
      && 1 <= |Text.Trim(v.confirmNewPassword)| <= 256
      && Text.Trim(v.newPassword) == Text.Trim(v.confirmNewPassword)
  {
    SentBodyIsTrimmed(v);
    EditUserBranchesDisjoint(ServerBody(t, ChangeEntries(v)));
    StrictSchemasFixTheKeys(ServerBody(t, ChangeEntries(v)));
  }

  /** A new password of spaces alone passes the form's own check, which sees the
      raw values, and is sent empty, so the server rejects it. */
  lemma BlankPasswordPassesTheFormOnly()
    ensures var v := PasswordChangeValues("old-secret", " ", " ");
      EditPasswordAccepts(RawBody(v)) && !EditUserAccepts(ServerBody(FieldsAsJson, ChangeEntries(v)))
  {
    var v := PasswordChangeValues("old-secret", " ", " ");
    assert Text.Trim(" ") == "";
    ServerVerdict(FieldsAsJson, v);
    assert RawBody(v).Keys == PasswordChangeKeys;
  }

  /** `disabled={!isDirty || mutation.isPending}` */
  predicate SubmitDisabled(isDirty: bool, isPending: bool) {
    !isDirty || isPending
  }

  /** The button is enabled only for an edited form while no request is pending. */
  lemma SubmitEnabledOnlyWhenEditedAndIdle(isDirty: bool, isPending: bool)
    ensures !SubmitDisabled(isDirty, isPending) <==> isDirty && !isPending
    ensures SubmitDisabled(false, false) && SubmitDisabled(true, true)
  {
  }
}
