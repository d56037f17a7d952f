/** The navigation bar's avatar initials. */
module Navbar {
  import opened Wrappers
  import opened Text

  /** The name fields of the stored user; `None` for a missing one. */
  datatype UserData = UserData(firstName: Option<string>, lastName: Option<string>)

  const UNKNOWN := "?"

  /** `x || ''` on an optional name. */
  function OrEmpty(s: Option<string>): string
  {
    if s.Some? then s.value else ""
  }

  /**
   * `getUserInitials()`: the last name's initial then the first name's,
   * upper-cased; one initial when only one name is known; `"?"` without a
   * user or without any name.
   */
  function GetUserInitials(user: Option<UserData>): (r: string)
    ensures 1 <= |r| <= 2
    ensures user.None? ==> r == UNKNOWN
    ensures user.Some? ==>
      var first, last := OrEmpty(user.value.firstName), OrEmpty(user.value.lastName);
      (first != "" && last != "" ==> r == [UpperChar(last[0]), UpperChar(first[0])])
      && (first != "" && last == "" ==> r == [UpperChar(first[0])])
      && (first == "" && last != "" ==> r == [UpperChar(last[0])])
      && (first == "" && last == "" ==> r == UNKNOWN)
  {
    if user.None? then UNKNOWN
    else
      var nom, prenom := OrEmpty(user.value.firstName), OrEmpty(user.value.lastName);
      if nom != "" && prenom != "" then Upper([prenom[0], nom[0]])
      else if nom != "" then Upper([nom[0]])
      else if prenom != "" then Upper([prenom[0]])
      else UNKNOWN
  }

  /** Two initials appear exactly when both names are known. */
  lemma TwoInitialsIffBothNames(user: UserData)
    ensures |GetUserInitials(Some(user))| == 2 <==> OrEmpty(user.firstName) != "" && OrEmpty(user.lastName) != ""
  {
  }
}
