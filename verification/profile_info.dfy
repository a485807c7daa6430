/** The displayed values of the profile-information screen (app/profile-info.tsx): each field of the
    student with its "N/A" fallback, the phone number with its country prefix, the unverified-email
    badge, and the gender label and icon. */
module ProfileInfo {
  import opened Optional
  import opened Text
  import opened StudentRecord

  const CountryPrefix: string := "+91"
  const FemaleIcon: string := "user-x"
  const OtherIcon: string := "user-check"

  /** `capitalizeFirst`: the first character upper-cased, the rest unchanged; `""` for a missing or empty
      string. Upper-casing covers ASCII letters only. */
  function CapitalizeFirst(s: Option<string>): (r: string)
    ensures !Present(s) <==> r == ""
    ensures Present(s) ==> |r| == |s.value| && r[0] == ToUpper(s.value[0]) && r[1..] == s.value[1..]
  {
    if Present(s) then [ToUpper(s.value[0])] + s.value[1..] else ""
  }

  /** Capitalizing twice is capitalizing once. */
  lemma CapitalizeFirstIdempotent(s: Option<string>)
    ensures CapitalizeFirst(Some(CapitalizeFirst(s))) == CapitalizeFirst(s)
  {
  }

  /** The screen's displayed profile. */
  datatype ProfileView = ProfileView(
    fullName: string,
    mobile: string,
    email: string,
    unverifiedBadge: bool,
    genderIcon: string,
    gender: string)

  /** `'+91' + mobile_no`, or "N/A" for a missing or empty number. */
  function MobileText(mobileNo: Option<string>): (text: string)
    ensures !Present(mobileNo) ==> text == NotAvailable
    ensures Present(mobileNo) ==> StartsWith(text, CountryPrefix) && text[|CountryPrefix|..] == mobileNo.value
  {
    if Present(mobileNo) then CountryPrefix + mobileNo.value else NotAvailable
  }

  /** Reads the number back out of its display. */
  function MobileOfText(text: string): Option<string> {
    if StartsWith(text, CountryPrefix) && |text| > |CountryPrefix| then Some(text[|CountryPrefix|..]) else None
  }

  /** The displayed number keeps the stored one: it can be read back, and "N/A" never shows a number. */
  lemma MobileTextRoundTrip(mobileNo: Option<string>)
    ensures Present(mobileNo) ==> MobileOfText(MobileText(mobileNo)) == mobileNo
    ensures !Present(mobileNo) ==> MobileOfText(MobileText(mobileNo)) == None
  {
    if Present(mobileNo) {
      assert (CountryPrefix + mobileNo.value)[..|CountryPrefix|] == CountryPrefix;
    }
  }

  /** `!email_verified && email`: an email is stored and it is not marked verified (missing counts as not). */
  predicate ShowsUnverifiedBadge(s: Student) {
    Present(s.email) && s.emailVerified != Some(true)
  }

  function View(s: Student): (v: ProfileView)
    ensures v.fullName == NotAvailable <==> !Present(s.fullName) || s.fullName.value == NotAvailable
    ensures Present(s.fullName) ==> v.fullName == s.fullName.value
    ensures v.email == NotAvailable <==> !Present(s.email) || s.email.value == NotAvailable
    ensures Present(s.email) ==> v.email == s.email.value
    ensures v.mobile == MobileText(s.mobileNo)
    ensures v.unverifiedBadge <==> Present(s.email) && s.emailVerified != Some(true)
    ensures v.genderIcon == FemaleIcon <==> s.gender == Some("female")
    ensures v.gender == NotAvailable <==> !Present(s.gender) || CapitalizeFirst(s.gender) == NotAvailable
    ensures Present(s.gender) ==> v.gender == CapitalizeFirst(s.gender)
  {
    var capitalized := CapitalizeFirst(s.gender);
    ProfileView(
      OrElse(s.fullName, NotAvailable),
      MobileText(s.mobileNo),
      OrElse(s.email, NotAvailable),
      ShowsUnverifiedBadge(s),
      if s.gender == Some("female") then FemaleIcon else OtherIcon,
      if capitalized != "" then capitalized else NotAvailable)
  }

  /** The icon test is case-sensitive while the label is capitalized: "female" and "Female" read the same
      on screen but get different icons. */
  lemma GenderIconIsCaseSensitive(s: Student)
    requires s.gender == Some("female")
    ensures var v := View(s);
      var t := View(s.(gender := Some("Female")));
      v.gender == t.gender == "Female" && v.genderIcon == FemaleIcon && t.genderIcon == OtherIcon
  {
  }
}
