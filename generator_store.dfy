/** The password-generator settings store (frontend/src/store/passwordGeneratorStore.ts):
    five settings and the last generated password, replaced through two setters. */
module GeneratorStore {
  import opened Wrappers

  datatype Settings = Settings(
    length: int,
    includeUppercase: bool,
    includeLowercase: bool,
    includeNumbers: bool,
    includeSymbols: bool)

  /** A partial settings object: an absent key is None. */
  datatype SettingsPatch = SettingsPatch(
    length: Option<int>,
    includeUppercase: Option<bool>,
    includeLowercase: Option<bool>,
    includeNumbers: Option<bool>,
    includeSymbols: Option<bool>)

  const DefaultSettings := Settings(12, true, true, true, true)
  const EmptyPatch := SettingsPatch(None, None, None, None, None)

  /** `{ ...state, ...newSettings }` restricted to the settings. */
  function ApplyPatch(s: Settings, p: SettingsPatch): Settings {
    Settings(p.length.GetOr(s.length),
             p.includeUppercase.GetOr(s.includeUppercase),
             p.includeLowercase.GetOr(s.includeLowercase),
             p.includeNumbers.GetOr(s.includeNumbers),
             p.includeSymbols.GetOr(s.includeSymbols))
  }

  /** The patch that carries every setting of `s`. */
  function FullPatch(s: Settings): SettingsPatch {
    SettingsPatch(Some(s.length), Some(s.includeUppercase), Some(s.includeLowercase),
                  Some(s.includeNumbers), Some(s.includeSymbols))
  }

  /** A present key overwrites its setting; an absent one keeps it. */
  lemma PatchOverwritesExactlyPresentKeys(s: Settings, p: SettingsPatch)
    ensures var r := ApplyPatch(s, p);
      && (p.length.Some? ==> r.length == p.length.value) && (p.length.None? ==> r.length == s.length)
      && (p.includeUppercase.Some? ==> r.includeUppercase == p.includeUppercase.value)
      && (p.includeUppercase.None? ==> r.includeUppercase == s.includeUppercase)
      && (p.includeLowercase.Some? ==> r.includeLowercase == p.includeLowercase.value)
      && (p.includeLowercase.None? ==> r.includeLowercase == s.includeLowercase)
      && (p.includeNumbers.Some? ==> r.includeNumbers == p.includeNumbers.value)
      && (p.includeNumbers.None? ==> r.includeNumbers == s.includeNumbers)
      && (p.includeSymbols.Some? ==> r.includeSymbols == p.includeSymbols.value)
      && (p.includeSymbols.None? ==> r.includeSymbols == s.includeSymbols)
  {
  }

  /** `updateSettings({})` changes nothing; applying a patch twice is applying it once. */
  lemma EmptyPatchIsIdentity(s: Settings)
    ensures ApplyPatch(s, EmptyPatch) == s
  {
  }

  lemma ApplyPatchIdempotent(s: Settings, p: SettingsPatch)
    ensures ApplyPatch(ApplyPatch(s, p), p) == ApplyPatch(s, p)
  {
  }

  /** A full patch replaces the settings, whatever they were. */
  lemma FullPatchReplaces(s: Settings, t: Settings)
    ensures ApplyPatch(t, FullPatch(s)) == s
  {
  }

  class PasswordGeneratorStore {
    var settings: Settings
    var generatedPassword: string

    constructor ()
      ensures settings == DefaultSettings && generatedPassword == ""
    {
      settings := Settings(12, true, true, true, true);
      generatedPassword := "";
    }

    /** updateSettings */
    method UpdateSettings(patch: SettingsPatch)
      modifies this
      ensures settings == ApplyPatch(old(settings), patch)
      ensures generatedPassword == old(generatedPassword)
    {
      settings := ApplyPatch(settings, patch);
    }

    /** setGeneratedPassword */
    method SetGeneratedPassword(password: string)
      modifies this
      ensures generatedPassword == password && settings == old(settings)
    {
      generatedPassword := password;
    }
  }
}
