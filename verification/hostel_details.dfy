/** The derived values of the hostel-details screen (app/hostel-details.tsx): the floor label read off a
    room number, the hostel type label, and the assignment status card. */
module HostelDetails {
  import opened Optional
  import opened Text
  import opened StudentRecord

  const GroundFloor: string := "Ground Floor"
  const FloorSuffix: string := "th Floor"
  const HostelBlockPrefix: string := "Hostel Block "

  /** JavaScript's decimal rendering of a one-digit integer, with a minus sign when negative. */
  function SmallDecimal(n: int): (s: string)
    requires -9 <= n <= 9
    ensures 1 <= |s| <= 2
    ensures n >= 0 ==> s == [DigitChar(n)]
    ensures n < 0 ==> s == ['-', DigitChar(-n)]
  {
    if n < 0 then ['-', DigitChar(-n)] else [DigitChar(n)]
  }

  /** `getFloor`: missing or empty room numbers and a first character that is not a digit give "N/A";
      a leading '1' is the ground floor; any other leading digit d gives `${d - 1}th Floor`, so '0' gives
      "-1th Floor" and '2' gives "1th Floor". Only the first character is read. */
  function GetFloor(roomNo: Option<string>): (text: string)
    ensures text == NotAvailable <==> !Present(roomNo) || !IsDigit(roomNo.value[0])
    ensures text == GroundFloor <==> Present(roomNo) && roomNo.value[0] == '1'
    ensures Present(roomNo) && IsDigit(roomNo.value[0]) && roomNo.value[0] != '1' ==>
      text == SmallDecimal(DigitValue(roomNo.value[0]) - 1) + FloorSuffix
  {
    if !Present(roomNo) then NotAvailable
    else
      var first := roomNo.value[0];
      if !IsDigit(first) then NotAvailable
      else
        var digit := DigitValue(first);
        if digit == 1 then GroundFloor else SmallDecimal(digit - 1) + FloorSuffix
  }

  /** The label depends on the first character of the room number alone. */
  lemma FloorReadsOnlyFirstCharacter(a: string, b: string)
    requires a != "" && b != "" && a[0] == b[0]
    ensures GetFloor(Some(a)) == GetFloor(Some(b))
  {
    var c := a[0];
    assert Present(Some(a)) && Present(Some(b));
    if IsDigit(c) && c != '1' {
      var text := SmallDecimal(DigitValue(c) - 1) + FloorSuffix;
      assert GetFloor(Some(a)) == text;
      assert GetFloor(Some(b)) == text;
    }
  }

  /** Different leading digits give different labels: the label identifies the digit it was read from. */
  lemma {:induction false} FloorLabelIdentifiesDigit(a: string, b: string)
    requires a != "" && b != "" && IsDigit(a[0]) && IsDigit(b[0]) && a[0] != b[0]
    ensures GetFloor(Some(a)) != GetFloor(Some(b))
  {
    var da: int, db: int := DigitValue(a[0]), DigitValue(b[0]);
    if da != 1 && db != 1 {
      var la, lb := SmallDecimal(da - 1), SmallDecimal(db - 1);
      var fa, fb := la + FloorSuffix, lb + FloorSuffix;
      if |la| != |lb| {
        assert |fa| != |fb|;
      } else {
        assert fa[|la| - 1] == la[|la| - 1];
        assert fb[|lb| - 1] == lb[|lb| - 1];
        assert fa[|la| - 1] != fb[|lb| - 1];
      }
    }
  }

  /** `getHostelType`: "N/A" for a missing or empty hostel number, otherwise the number after "Hostel Block ". */
  function GetHostelType(hostelNo: Option<string>): (text: string)
    ensures !Present(hostelNo) ==> text == NotAvailable
    ensures Present(hostelNo) ==> StartsWith(text, HostelBlockPrefix) && text[|HostelBlockPrefix|..] == hostelNo.value
  {
    if !Present(hostelNo) then NotAvailable else HostelBlockPrefix + hostelNo.value
  }

  /** Reads a hostel number back out of a hostel type label. */
  function HostelNoOfLabel(text: string): Option<string> {
    if StartsWith(text, HostelBlockPrefix) && |text| > |HostelBlockPrefix|
    then Some(text[|HostelBlockPrefix|..])
    else None
  }

  /** The hostel type label keeps the hostel number verbatim: it can be read back, and "N/A" is never
      the label of a present hostel number. */
  lemma HostelTypeRoundTrip(hostelNo: Option<string>)
    ensures Present(hostelNo) ==> HostelNoOfLabel(GetHostelType(hostelNo)) == hostelNo
    ensures !Present(hostelNo) ==> HostelNoOfLabel(GetHostelType(hostelNo)) == None
  {
    if Present(hostelNo) {
      assert (HostelBlockPrefix + hostelNo.value)[..|HostelBlockPrefix|] == HostelBlockPrefix;
    }
  }

  /** The status card. The source tests `hostel_no && room_no` separately for the icon, its colour, the
      title and each of the two descriptions, so each is computed here on its own. */
  datatype StatusCard = StatusCard(
    icon: string,
    color: string,
    title: string,
    assignedNote: Option<string>,
    pendingNote: Option<string>)

  const AssignedTitle: string := "Accommodation Assigned"
  const PendingTitle: string := "Pending Assignment"
  const PendingNote: string :=
    "Your hostel and room assignment is pending. Please contact the administration for updates."

  function AssignedNote(hostelNo: string, roomNo: string): string {
    "You are currently assigned to Room " + roomNo + " in Hostel " + hostelNo
  }

  /** The student is shown as assigned exactly when both the hostel and the room number are non-empty;
      exactly one of the two descriptions is shown, and it agrees with the title and the icon. */
  function Status(s: Student): (card: StatusCard)
    ensures card.title == AssignedTitle <==> Present(s.hostelNo) && Present(s.roomNo)
    ensures card.title == AssignedTitle || card.title == PendingTitle
    ensures card.assignedNote.Some? <==> card.pendingNote.None?
    ensures card.assignedNote.Some? <==> card.title == AssignedTitle
    ensures card.icon == "check-circle" <==> card.title == AssignedTitle
    ensures card.color == (if card.title == AssignedTitle then "#4CAF50" else "#FF9800")
    ensures card.pendingNote.Some? ==> card.pendingNote.value == PendingNote
    ensures card.assignedNote.Some? ==> Present(s.hostelNo) && Present(s.roomNo) && card.assignedNote.value == AssignedNote(s.hostelNo.value, s.roomNo.value)
  {
    var both := Present(s.hostelNo) && Present(s.roomNo);
    StatusCard(
      if both then "check-circle" else "clock-outline",
      if both then "#4CAF50" else "#FF9800",
      if both then AssignedTitle else PendingTitle,
      if both then Some(AssignedNote(s.hostelNo.value, s.roomNo.value)) else None,
      if !Present(s.hostelNo) || !Present(s.roomNo) then Some(PendingNote) else None)
  }
}
