/** The `Student` record cached on the device and returned by the student API, shared by the three
    screens (app/editprofile.tsx, app/hostel-details.tsx and app/profile-info.tsx declare it alike). */
module StudentRecord {
  import opened Optional

  /** Every optional or nullable field is an `Option`; `undefined` and `null` are both `None`. */
  datatype Student = Student(
    rollNo: string,
    fullName: Option<string>,
    gender: Option<string>,
    mobileNo: Option<string>,
    email: Option<string>,
    hostelNo: Option<string>,
    roomNo: Option<string>,
    emailVerified: Option<bool>,
    createdAt: Option<string>,
    profilePicUrl: Option<string>)

  /** The placeholder every screen shows for a missing value. */
  const NotAvailable: string := "N/A"

  /** JavaScript truthiness of an optional string: `undefined`, `null` and `""` are falsy. */
  predicate Present(s: Option<string>) {
    s.Some? && s.value != ""
  }

  /** `s || fallback` for an optional string. */
  function OrElse(s: Option<string>, fallback: string): string {
    if Present(s) then s.value else fallback
  }

  /** `s || fallback` is the fallback exactly when `s` is falsy or is itself the fallback text. */
  lemma OrElseIsFallbackIff(s: Option<string>, fallback: string)
    ensures OrElse(s, fallback) == fallback <==> !Present(s) || s.value == fallback
  {
  }
}
