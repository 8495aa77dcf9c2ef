/**
 * The checks run on `secrets/configuration-user.yml` (the team's `gpg_key`
 * and `gpg_edit` settings) and on the `company` section of
 * `secrets/configuration.yml` before anything else is trusted.
 */
module Settings {
  import opened Basics
  import opened RubyStrings

  /** A YAML scalar as `YAML.load_file` hands it back. */
  datatype YamlScalar = YNull | YBool(b: bool) | YStr(s: string) | YInt(i: int)

  datatype SettingsError =
    | BadGpgKey     // "Please set your team's gpg_key ..."
    | BadGpgEdit    // "Please set gpg_edit to either true or false ..."
    | Crash         // a method called on a value that lacks it (`match` on an Integer)

  /**
   * `gpg_key` is refused when it is missing, holds white space, or is
   * shorter than 20 characters.
   */
  function ValidateGpgKey(v: YamlScalar): (r: Result<string, SettingsError>)
    ensures r.Ok? <==> v.YStr? && !HasSpace(v.s) && |v.s| >= 20
    ensures r.Ok? ==> r.value == v.s
    ensures r == Err(BadGpgKey) <==> v.YNull? || (v.YStr? && (HasSpace(v.s) || |v.s| < 20))
  {
    match v
    case YNull => Err(BadGpgKey)
    case YStr(s) => if HasSpace(s) || |s| < 20 then Err(BadGpgKey) else Ok(s)
    case _ => Err(Crash)
  }

  /**
   * `gpg_edit` as the script evaluates it: `not` binds looser than `||`, so
   * the test is `not (v in [true, false] || v == nil || v =~ /\s/)`. A
   * boolean, a missing value and a string holding white space all pass;
   * the result is the truth value the script later branches on (a string
   * is truthy, nil is not).
   */
  function GpgEditAsWritten(v: YamlScalar): (r: Result<bool, SettingsError>)
    ensures v.YBool? ==> r == Ok(v.b)
    ensures v.YNull? ==> r == Ok(false)
    ensures v.YStr? ==> (r.Ok? <==> HasSpace(v.s))
    ensures r.Ok? && r.value ==> !v.YNull?
  {
    match v
    case YBool(b) => Ok(b)
    case YNull => Ok(false)
    case YStr(s) => if HasSpace(s) then Ok(true) else Err(BadGpgEdit)
    case YInt(_) => Err(Crash)
  }

  /** `gpg_edit` as its message asks for it: exactly `true` or `false`. */
  function GpgEdit(v: YamlScalar): (r: Result<bool, SettingsError>)
    ensures r.Ok? <==> v.YBool?
    ensures r.Ok? ==> r.value == v.b
  {
    if v.YBool? then Ok(v.b) else Err(BadGpgEdit)
  }

  /** The two readings differ: a missing `gpg_edit`, or one holding a space, slips through. */
  lemma GpgEditPrecedenceGap()
    ensures GpgEditAsWritten(YNull) == Ok(false) && GpgEdit(YNull) == Err(BadGpgEdit)
    ensures GpgEditAsWritten(YStr("no way")) == Ok(true) && GpgEdit(YStr("no way")).Err?
  {
    assert IsSpace("no way"[2]);
  }

  /** Whatever the corrected check accepts, the written one accepts with the same value. */
  lemma GpgEditRefines(v: YamlScalar)
    ensures GpgEdit(v).Ok? ==> GpgEditAsWritten(v) == GpgEdit(v)
  {
  }

  /** `settings` from `configuration-user.yml`. */
  datatype UserSettings = UserSettings(gpgKey: YamlScalar, gpgEdit: YamlScalar)

  /** The passphrase and the edit mode, or the first complaint. */
  datatype Team = Team(passphrase: string, editMode: bool)

  /** `gpg_edit` under either reading. */
  function GpgEditRead(reading: Reading, v: YamlScalar): Result<bool, SettingsError>
  {
    if reading.AsWritten? then GpgEditAsWritten(v) else GpgEdit(v)
  }

  /**
   * The two settings checks in order; the script runs the `AsWritten`
   * reading, under which a missing `gpg_edit` means edit mode off and one
   * holding white space means edit mode on.
   */
  function ValidateSettings(reading: Reading, u: UserSettings): (r: Result<Team, SettingsError>)
    ensures r.Ok? <==>
      ValidateGpgKey(u.gpgKey).Ok? &&
      (u.gpgEdit.YBool? || (reading.AsWritten? && (u.gpgEdit.YNull? || (u.gpgEdit.YStr? && HasSpace(u.gpgEdit.s)))))
    ensures r.Ok? ==> r.value.passphrase == u.gpgKey.s
    ensures r.Ok? ==> (r.value.editMode <==> (u.gpgEdit.YBool? && u.gpgEdit.b) || u.gpgEdit.YStr?)
    ensures ValidateGpgKey(u.gpgKey).Err? ==> r == Err(ValidateGpgKey(u.gpgKey).error)
  {
    match ValidateGpgKey(u.gpgKey)
    case Err(e) => Err(e)
    case Ok(key) =>
      match GpgEditRead(reading, u.gpgEdit)
      case Err(e) => Err(e)
      case Ok(edit) => Ok(Team(key, edit))
  }

  /** Settings the intended checks accept pass the written ones too, with the same team. */
  lemma ValidateSettingsRefines(u: UserSettings)
    ensures ValidateSettings(Intended, u).Ok? ==> ValidateSettings(AsWritten, u) == ValidateSettings(Intended, u)
  {
    GpgEditRefines(u.gpgEdit);
  }

  /** The `company` fields the script refuses to go on without. */
  datatype Company = Company(
    catapultRepo: Option<string>,
    name: Option<string>,
    email: Option<string>,
    timezoneRedhat: Option<string>,
    timezoneWindows: Option<string>)

  datatype CompanyError =
    | NoCatapultRepo
    | NoName
    | NameTooLong   // more than 39 characters: 63 less "-production-redhat-mysql"
    | NoEmail
    | NoTimezoneRedhat
    | NoTimezoneWindows

  const MaxCompanyName := 39

  /** The first missing or over-long field, in the order the script checks them. */
  function ValidateCompany(c: Company): (r: Outcome<CompanyError>)
    ensures r == Pass <==>
      c.catapultRepo.Some? && c.name.Some? && |c.name.value| <= MaxCompanyName &&
      c.email.Some? && c.timezoneRedhat.Some? && c.timezoneWindows.Some?
    ensures r == Fail(NoCatapultRepo) <==> c.catapultRepo.None?
    ensures r == Fail(NoName) <==> c.catapultRepo.Some? && c.name.None?
    ensures r == Fail(NameTooLong) <==>
      c.catapultRepo.Some? && c.name.Some? && |c.name.value| > MaxCompanyName
    ensures r == Fail(NoEmail) <==>
      c.catapultRepo.Some? && c.name.Some? && |c.name.value| <= MaxCompanyName && c.email.None?
    ensures r == Fail(NoTimezoneRedhat) <==>
      c.catapultRepo.Some? && c.name.Some? && |c.name.value| <= MaxCompanyName &&
      c.email.Some? && c.timezoneRedhat.None?
    ensures r == Fail(NoTimezoneWindows) <==>
      c.catapultRepo.Some? && c.name.Some? && |c.name.value| <= MaxCompanyName &&
      c.email.Some? && c.timezoneRedhat.Some? && c.timezoneWindows.None?
  {
    if c.catapultRepo.None? then Fail(NoCatapultRepo)
    else if c.name.None? then Fail(NoName)
    else if |c.name.value| > MaxCompanyName then Fail(NameTooLong)
    else if c.email.None? then Fail(NoEmail)
    else if c.timezoneRedhat.None? then Fail(NoTimezoneRedhat)
    else if c.timezoneWindows.None? then Fail(NoTimezoneWindows)
    else Pass
  }
}
