// The settings of the operations: which outcomes are logged, and the letters for
// them in the header of the log.

module Settings {
  import opened Wrappers
  import opened RoundUp
  import opened PrintLog

  // What the configuration sets for an operation, or None for a wrong value.
  function ReadSetting(value: string): Option<nat> {
    if value == "success" then Some(LOG_SUCCESS)
    else if value == "unsuccess" then Some(LOG_UNSUCCESS)
    else if value == "all" then Some(Or(LOG_UNSUCCESS, LOG_UNSUCCESS))
    else if value == "never" then Some(0)
    else None
  }

  // The setting of an operation that the configuration does not name.
  const DEFAULT: nat := Or(LOG_SUCCESS, LOG_UNSUCCESS)

  // should_log: whether an outcome, success or not, is logged.
  predicate ShouldLog(setting: nat, outcome: nat) {
    And(setting, outcome) != 0
  }

  // What a value of the configuration is for.
  predicate Meant(value: string, success: bool) {
    value == "all" || value == if success then "success" else "unsuccess"
  }

  lemma Numbers()
    ensures Or(1, 2) == 3 && Or(2, 2) == 2
    ensures And(1, 1) == 1 && And(2, 2) == 2 && And(3, 1) == 1 && And(3, 2) == 2
    ensures And(1, 2) == And(2, 1) == And(0, 1) == And(0, 2) == 0
  {
    assert Or(1, 1) == 1 && And(1, 0) == And(0, 1) == 0;
  }

  // A value logs what it is for, except that `all` logs no successes.
  lemma SettingMeans(value: string, success: bool)
    requires ReadSetting(value).Some?
    ensures var logged := ShouldLog(ReadSetting(value).value, if success then LOG_SUCCESS else LOG_UNSUCCESS);
      (logged <==> Meant(value, success)) <==> !(value == "all" && success)
  {
    Numbers();
  }

  // It is the same as `unsuccess`; only an operation that is not named has both.
  lemma AllIsUnsuccess()
    ensures ReadSetting("all") == ReadSetting("unsuccess")
    ensures ShouldLog(DEFAULT, LOG_SUCCESS) && ShouldLog(DEFAULT, LOG_UNSUCCESS)
  {
    Numbers();
  }

  // The header has the letter `a` for both, a dot for an operation with both
  // outcomes logged as for one with none, and never `u`.
  lemma SettingLetters()
    ensures SettingChar(ReadSetting("success").value) == 's'
    ensures SettingChar(ReadSetting("all").value) == 'a' == SettingChar(ReadSetting("unsuccess").value)
    ensures SettingChar(ReadSetting("never").value) == '.' == SettingChar(DEFAULT)
    ensures forall setting :: SettingChar(setting) != 'u'
  {
    Numbers();
  }
}
