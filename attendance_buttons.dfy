/** The attendance page's check-in / check-out controls: the two revisions of
    `updateEmployeeState` (static/js/main2.js, driven by a state name, and
    static/js/main4.js, driven by a display label) and the click handlers
    that call them.

    One `[data-emp-id]` wrapper holds up to four elements the function
    touches; an element the wrapper lacks is `None` and is left alone. A
    button is represented by its `disabled` flag. */
module AttendanceButtons {
  import opened Wrappers
  import opened Text

  datatype StatusElement = StatusElement(text: string, color: string)

  datatype EmployeeWrapper = EmployeeWrapper(
    status: Option<StatusElement>,
    checkin: Option<bool>,
    checkout: Option<bool>,
    hours: Option<string>)

  /** What one update writes: the status text and colour and the two
      buttons' `disabled` flags. */
  datatype ButtonView = ButtonView(text: string, color: string, checkinDisabled: bool, checkoutDisabled: bool)

  /** Which button a click landed on. */
  datatype Click = CheckInClick | CheckOutClick

  /** Sets the `disabled` flag of a button the wrapper contains. */
  function SetDisabled(button: Option<bool>, disabled: bool): (b: Option<bool>)
    ensures b.Some? <==> button.Some?
    ensures b.Some? ==> b.value == disabled
  {
    if button.Some? then Some(disabled) else None
  }

  // ---------------------------------------------------------------------
  // static/js/main2.js: decided by the state name

  /** The view for a state name: "checked-in" and "checked-out" each have
      their own text and colour, anything else reads "Not Checked In". In
      every case exactly one button is disabled, and it is the check-in
      button exactly for "checked-in". */
  function StateView(state: string): (v: ButtonView)
    ensures v.checkinDisabled != v.checkoutDisabled
    ensures v.checkinDisabled <==> state == "checked-in"
    ensures v.text == "Checked In" <==> state == "checked-in"
    ensures v.text == "Checked Out" <==> state == "checked-out"
    ensures v.text == "Not Checked In" <==> state != "checked-in" && state != "checked-out"
    ensures v.color == (if state == "checked-in" then "green" else if state == "checked-out" then "crimson" else "")
  {
    if state == "checked-in" then ButtonView("Checked In", "green", true, false)
    else if state == "checked-out" then ButtonView("Checked Out", "crimson", false, true)
    else ButtonView("Not Checked In", "", false, true)
  }

  /** One wrapper under main2.js's `updateEmployeeState`: a wrapper without
      a status element is skipped entirely; otherwise the status and every
      button present take the state's view and the hours are untouched. */
  function UpdateByState(w: EmployeeWrapper, state: string): (u: EmployeeWrapper)
    ensures w.status.None? ==> u == w
    ensures w.status.Some? ==>
      var v := StateView(state);
      && u.status == Some(StatusElement(v.text, v.color))
      && u.checkin == SetDisabled(w.checkin, v.checkinDisabled)
      && u.checkout == SetDisabled(w.checkout, v.checkoutDisabled)
      && u.hours == w.hours
  {
    if w.status.None? then w
    else
      var v := StateView(state);
      w.(status := Some(StatusElement(v.text, v.color)),
         checkin := SetDisabled(w.checkin, v.checkinDisabled),
         checkout := SetDisabled(w.checkout, v.checkoutDisabled))
  }

  /** The state main2.js's click handler passes for each button. */
  function ClickState(c: Click): string {
    match c
    case CheckInClick => "checked-in"
    case CheckOutClick => "checked-out"
  }

  /** In main2.js a check-in click disables check-in and enables check-out,
      and a check-out click does the reverse. */
  lemma StateClicksToggleButtons(c: Click)
    ensures StateView(ClickState(c)).checkinDisabled == c.CheckInClick?
    ensures StateView(ClickState(c)).checkoutDisabled == c.CheckOutClick?
  {
  }

  /** Writing a second state over a first leaves exactly what the second
      alone would leave: the update keeps no memory of earlier states. */
  lemma UpdateByStateLastWins(w: EmployeeWrapper, first: string, second: string)
    ensures UpdateByState(UpdateByState(w, first), second) == UpdateByState(w, second)
  {
  }

  // ---------------------------------------------------------------------
  // static/js/main4.js: decided by the label text

  /** The flags main4.js sets from a label: check-in is disabled exactly when
      the lower-cased label contains "checked in", and the two flags always
      differ (the "checked out" branch and the default branch coincide). */
  function LabelView(labelText: string, color: Option<string>): (v: ButtonView)
    ensures v.text == labelText && v.color == color.GetOr("")
    ensures v.checkinDisabled <==> Contains(Lower(labelText), "checked in")
    ensures v.checkinDisabled != v.checkoutDisabled
  {
    var l := Lower(labelText);
    if Contains(l, "checked in") then ButtonView(labelText, color.GetOr(""), true, false)
    else if Contains(l, "checked out") then ButtonView(labelText, color.GetOr(""), false, true)
    else ButtonView(labelText, color.GetOr(""), false, true)
  }

  /** The hours text main4.js writes for a non-zero hour count. */
  function HoursText(hrs: nat): string {
    NatToDecimal(hrs) + " hrs"
  }

  /** One wrapper under main4.js's `updateEmployeeState`: the status element,
      if present, takes the label and colour; the hours element, if present,
      takes the hours only when they are non-zero; the buttons present take
      the label's flags whether or not there is a status element. */
  function UpdateByLabel(w: EmployeeWrapper, labelText: string, color: Option<string>, hrs: nat): (u: EmployeeWrapper)
    ensures u.status.Some? <==> w.status.Some?
    ensures u.status.Some? ==> u.status.value == StatusElement(labelText, color.GetOr(""))
    ensures u.hours == if w.hours.Some? && hrs != 0 then Some(HoursText(hrs)) else w.hours
    ensures u.checkin == SetDisabled(w.checkin, Contains(Lower(labelText), "checked in"))
    ensures u.checkout == SetDisabled(w.checkout, !Contains(Lower(labelText), "checked in"))
  {
    var v := LabelView(labelText, color);
    EmployeeWrapper(
      if w.status.Some? then Some(StatusElement(v.text, v.color)) else None,
      SetDisabled(w.checkin, v.checkinDisabled),
      SetDisabled(w.checkout, v.checkoutDisabled),
      if w.hours.Some? && hrs != 0 then Some(HoursText(hrs)) else w.hours)
  }

  /** The label main4.js's click handler passes for each button (with no
      colour and no hours). */
  function ClickLabel(c: Click): string {
    match c
    case CheckInClick => "checked-in"
    case CheckOutClick => "checked-out"
  }

  /** Neither hyphenated click label contains "checked in". */
  lemma ClickLabelsLackCheckedIn(c: Click)
    ensures !Contains(Lower(ClickLabel(c)), "checked in")
  {
    var l := ClickLabel(c);
    LowerOfLowercase(l);
    if c.CheckInClick? {
      forall i | 0 <= i <= |l| - 10 ensures !OccursAt(l, "checked in", i) {
        assert l[i..i + 10][7] != "checked in"[7];
      }
    } else {
      forall i | 0 <= i <= |l| - 10 ensures !OccursAt(l, "checked in", i) {
        if i == 0 {
          assert l[i..i + 10][7] != "checked in"[7];
        } else {
          assert l[i..i + 10][0] != "checked in"[0];
        }
      }
    }
  }

  /** As written, a click on either button lands in main4.js's default
      branch: check-in stays enabled and check-out disabled, so a check-in
      click does not disable the check-in button, while the status shows the
      raw hyphenated label. */
  lemma CheckInClickLeavesCheckInEnabled(c: Click)
    ensures !LabelView(ClickLabel(c), None).checkinDisabled
    ensures LabelView(ClickLabel(c), None).checkoutDisabled
    ensures LabelView(ClickLabel(c), None).text == ClickLabel(c)
  {
    ClickLabelsLackCheckedIn(c);
  }

  /** The substring test also fires inside "Not Checked In", the label the
      state-driven revision shows for an employee who has not checked in:
      given that label, main4.js disables the check-in button. No caller of
      the label-driven revision passes it. */
  lemma NotCheckedInLabelDisablesCheckIn(color: Option<string>)
    ensures LabelView("Not Checked In", color).checkinDisabled
    ensures IntendedLabelView("Not Checked In", color).checkinDisabled
  {
    var l := Lower("Not Checked In");
    assert l == "not checked in";
    assert OccursAt(l, "checked in", 4);
  }

  /** The label flags as evidently intended: the hyphenated spellings the
      click handler uses are recognised as well as the spaced ones. */
  function IntendedLabelView(labelText: string, color: Option<string>): (v: ButtonView)
    ensures v.text == labelText && v.color == color.GetOr("")
    ensures v.checkinDisabled != v.checkoutDisabled
    ensures v.checkinDisabled <==> Contains(Lower(labelText), "checked in") || Contains(Lower(labelText), "checked-in")
  {
    var l := Lower(labelText);
    if Contains(l, "checked in") || Contains(l, "checked-in") then ButtonView(labelText, color.GetOr(""), true, false)
    else ButtonView(labelText, color.GetOr(""), false, true)
  }

  /** With the intended flags, main4.js's click handler toggles the buttons
      exactly as main2.js's does for the same click. */
  lemma IntendedClicksMatchStateView(c: Click)
    ensures IntendedLabelView(ClickLabel(c), None).checkinDisabled == StateView(ClickState(c)).checkinDisabled
    ensures IntendedLabelView(ClickLabel(c), None).checkoutDisabled == StateView(ClickState(c)).checkoutDisabled
  {
    var l := ClickLabel(c);
    LowerOfLowercase(l);
    ClickLabelsLackCheckedIn(c);
    if c.CheckInClick? {
      ContainsSelf(l);
    } else {
      forall i | 0 <= i <= |l| - 10 ensures !OccursAt(l, "checked-in", i) {
        if i == 0 {
          assert l[i..i + 10][8] != "checked-in"[8];
        } else {
          assert l[i..i + 10][0] != "checked-in"[0];
        }
      }
    }
  }

  /** On every label that does not contain "checked-in", the intended flags
      are the flags as written. */
  lemma IntendedAgreesOffHyphenatedLabel(labelText: string, color: Option<string>)
    requires !Contains(Lower(labelText), "checked-in")
    ensures IntendedLabelView(labelText, color) == LabelView(labelText, color)
  {
  }
}
