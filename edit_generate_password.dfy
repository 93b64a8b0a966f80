/** The generation-rules dialog (frontend/src/components/EditGeneratePassword.tsx):
    a local copy of the store's settings edited field by field, validated on save
    (length 5 to 25) and pushed to the store whole. */
module EditGeneratePassword {
  import opened Wrappers
  import opened GeneratorStore

  const MinLength := 5
  const MaxLength := 25
  const TooShortMessage := "Length must be at least 5"
  const TooLongMessage := "Length cannot exceed 25"

  datatype Flag = Uppercase | Lowercase | Numbers | Symbols

  /** The inputs of the dialog: the number input `length` (its value already
      passed through `Number`) and the four checkboxes. */
  datatype InputChange = LengthInput(value: int) | FlagInput(flag: Flag, checked: bool)

  /** handleInputChange's update: only the named field takes the new value. */
  function ChangeSetting(s: Settings, c: InputChange): Settings {
    match c
    case LengthInput(v) => s.(length := v)
    case FlagInput(Uppercase, b) => s.(includeUppercase := b)
    case FlagInput(Lowercase, b) => s.(includeLowercase := b)
    case FlagInput(Numbers, b) => s.(includeNumbers := b)
    case FlagInput(Symbols, b) => s.(includeSymbols := b)
  }

  function FlagValue(s: Settings, f: Flag): bool {
    match f
    case Uppercase => s.includeUppercase
    case Lowercase => s.includeLowercase
    case Numbers => s.includeNumbers
    case Symbols => s.includeSymbols
  }

  /** A change sets its own field and leaves every other one as it was. */
  lemma ChangeSetsOnlyItsField(s: Settings, c: InputChange)
    ensures var r := ChangeSetting(s, c);
      && (c.LengthInput? ==> r.length == c.value && forall f :: FlagValue(r, f) == FlagValue(s, f))
      && (c.FlagInput? ==>
            && r.length == s.length
            && FlagValue(r, c.flag) == c.checked
            && forall f :: f != c.flag ==> FlagValue(r, f) == FlagValue(s, f))
  {
  }

  /** The error handleSave reports, if any, in the order it checks. */
  function SaveError(length: int): Option<string> {
    if length < MinLength then Some(TooShortMessage)
    else if length > MaxLength then Some(TooLongMessage)
    else None
  }

  /** A save goes through exactly for the lengths 5 to 25. */
  lemma SaveBounds(length: int)
    ensures SaveError(length).None? <==> MinLength <= length <= MaxLength
    ensures SaveError(4) == Some(TooShortMessage) && SaveError(26) == Some(TooLongMessage)
    ensures SaveError(5).None? && SaveError(25).None?
  {
  }

  predicate LengthInBounds(s: Settings) {
    MinLength <= s.length <= MaxLength
  }

  class RuleEditor {
    var local: Settings
    var open: bool
    var error: Option<string>
    const store: PasswordGeneratorStore

    constructor (store: PasswordGeneratorStore)
      ensures local == store.settings && !open && error.None? && this.store == store
    {
      local := store.settings;
      open := false;
      error := None;
      this.store := store;
    }

    method HandleInputChange(c: InputChange)
      modifies this
      ensures local == ChangeSetting(old(local), c)
      ensures open == old(open) && error == old(error)
    {
      local := ChangeSetting(local, c);
    }

    /** handleSave: a refused length sets the error and changes nothing else; an
        accepted one clears it, pushes every local setting and closes the dialog.
        The store's length thus only ever takes a value from 5 to 25 here. */
    method HandleSave()
      modifies this, store
      ensures local == old(local) && store.generatedPassword == old(store.generatedPassword)
      ensures SaveError(local.length).Some? ==>
        error == SaveError(local.length) && open == old(open) && store.settings == old(store.settings)
      ensures SaveError(local.length).None? ==>
        error.None? && !open && store.settings == local
      ensures LengthInBounds(old(store.settings)) ==> LengthInBounds(store.settings)
    {
      if local.length < MinLength {
        error := Some(TooShortMessage);
        return;
      }
      if local.length > MaxLength {
        error := Some(TooLongMessage);
        return;
      }
      error := None;
      store.UpdateSettings(FullPatch(local));
      FullPatchReplaces(local, old(store.settings));
      open := false;
    }

    /** The effect on the five store settings: it runs when one of them differs
        from the render before, and then copies all five into the local state. */
    method SyncFromStore(previous: Settings)
      modifies this
      ensures local == if store.settings != previous then store.settings else old(local)
      ensures open == old(open) && error == old(error)
    {
      if store.settings != previous {
        local := store.settings;
      }
    }
  }
}
