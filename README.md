# SmartPay Advance: the decision and arithmetic code, in Dafny

SmartPay Advance is a Django payroll and salary-advance portal whose pages are
driven by plain browser scripts. This project models the parts of it that
decide or compute something, and proves what they promise:

- the leave form's day count and resumption date (`LeaveDays`, static/js/main4.js);
- the attendance page's check-in / check-out controls in both script
  revisions, one keyed by a state name (static/js/main2.js) and one keyed by a
  display label (static/js/main4.js) (`AttendanceButtons`);
- the attendance page's search and department filter, both revisions
  (`AttendanceFilter`);
- the cookie reader `getCookie` used for the CSRF token (`Cookies`);
- the hero carousel and the product slider (`Sliders`);
- the message centre's tabs, conversation opening and composer
  (`MessageCentre`);
- the payroll table's search box (`Payroll`);
- the sign-in redirect `get_redirect_for_user` (`Routing`) and the
  `admin_required` view decorator (`Access`).

`Text` models the JavaScript string operations these rely on (`trim`,
`toLowerCase`, `includes`, `startsWith`, `split`); `Wrappers` holds `Option`.

Conventions. A calendar date is a day number: day 0 is Thursday
1 January 1970, so `Weekday(d) = (d + 4) % 7` with 0 for Sunday, as
`getDay()` numbers weekdays. A date field that does not parse (an Invalid
Date) is `None`. A DOM element a page may lack is an `Option`; an attribute
read with `|| ""` is the empty string when missing. State the scripts change
step by step (the two sliders, the chat panel) is a class whose methods
modify its fields; the rest is functions and lemmas. The day-count loop and
the cookie loop are methods with loop invariants, each proved against a
recursive specification function.

The leave form counts the days of the range that are not Sundays
(static/js/main4.js:139-142), not the length of the range. The
`LeaveDays.FullCountIffNoSunday` lemma shows the two agree exactly when the
range holds no Sunday. The model follows the code.

## Model

| member | source | states |
|---|---|---|
| LeaveDays.CalculateDaysAndResumption | static/js/main4.js:131-156 | a result exists iff both dates parse and end ≥ start; the count is the number of non-Sunday days of [start, end], at most end − start + 1; the resumption date is 1 or 2 days after the end and never a Sunday |
| LeaveDays.NonSundayCount | static/js/main4.js:139-142 | the count never exceeds the length of the range |
| LeaveDays.NonSundayCountIsCardinality | static/js/main4.js:139-142 | the count equals the size of the set of non-Sunday days in the range |
| LeaveDays.FullCountIffNoSunday | static/js/main4.js:139-141 | the count equals the range length iff the range contains no Sunday |
| LeaveDays.NonSundayCountSplit | static/js/main4.js:139-142 | the count of a range is the sum of the counts of two adjacent parts |
| LeaveDays.OneWeekCountsSix | static/js/main4.js:139-142 | any 7 consecutive days count 6 |
| LeaveDays.WholeWeeksCountSixPerWeek | static/js/main4.js:139-142 | a leave of w whole weeks counts 6w days |
| LeaveDays.ResumptionDate | static/js/main4.js:146-148 | the first non-Sunday after the end: 1 or 2 days later, never a Sunday, with only Sundays skipped |
| LeaveDays.ResumptionByWeekday | static/js/main4.js:146-148 | a leave ending on Saturday resumes on Monday (end + 2); any other leave resumes the next day |
| AttendanceButtons.StateView | static/js/main2.js:361-376 | "checked-in" gives "Checked In", green, check-in disabled; "checked-out" gives "Checked Out", crimson, check-out disabled; anything else gives "Not Checked In", no colour, check-out disabled; exactly one button is disabled |
| AttendanceButtons.UpdateByState | static/js/main2.js:354-378 | a wrapper without a status element is left unchanged; otherwise the status and every present button take the state's view, and the hours are untouched |
| AttendanceButtons.StateClicksToggleButtons | static/js/main2.js:380-388 | a check-in click disables check-in only, a check-out click disables check-out only |
| AttendanceButtons.UpdateByStateLastWins | static/js/main2.js:354-378 | applying two states in a row leaves what the second alone leaves |
| AttendanceButtons.SetDisabled | static/js/main2.js:364-365 | a present button takes the flag; a missing one stays missing |
| AttendanceButtons.LabelView | static/js/main4.js:61-70 | check-in is disabled iff the lower-cased label contains "checked in"; the two flags always differ; the status shows the label and the colour or "" |
| AttendanceButtons.UpdateByLabel | static/js/main4.js:44-72 | the status takes label and colour when present; the hours take "N hrs" only for non-zero N; present buttons take the label's flags even without a status element |
| AttendanceButtons.ClickLabelsLackCheckedIn | static/js/main4.js:78-90 | neither label the click handler passes contains "checked in" |
| AttendanceButtons.CheckInClickLeavesCheckInEnabled | static/js/main4.js:78-90 | as written, both clicks leave check-in enabled and check-out disabled, and the status shows the raw hyphenated label |
| AttendanceButtons.NotCheckedInLabelDisablesCheckIn | static/js/main4.js:61-63 | the label "Not Checked In" contains "checked in", so main4.js (and the corrected flags) disable check-in for it |
| AttendanceButtons.IntendedLabelView | static/js/main4.js:61-70 | corrected: check-in is disabled iff the label contains "checked in" or "checked-in"; the flags always differ |
| AttendanceButtons.IntendedClicksMatchStateView | static/js/main4.js:78-90 | with the corrected flags, each click sets the buttons as the main2.js revision does for the same click |
| AttendanceButtons.IntendedAgreesOffHyphenatedLabel | static/js/main4.js:61-70 | the correction changes nothing on labels without "checked-in" |
| AttendanceFilter.QueryOf | static/js/main4.js:100 | a missing search box is an empty query; a present one gives an empty query iff it is blank |
| AttendanceFilter.DeptFilterOf | static/js/main4.js:101 | the filter is never empty: a missing or empty selection reads "all", any other selection is used as it is |
| AttendanceFilter.Visible | static/js/main2.js:401-404 | main2.js's test of a card or row (the same test for both, lines 413-416): the query lower-cased then trimmed must be empty or occur in the lower-cased name or id, and the filter must be "all" or the department |
| AttendanceFilter.VisibleMain4 | static/js/main4.js:107 | main4.js's test of a card or row (the same test for both, line 115), over the normalised query and department filter |
| AttendanceFilter.VisibleIff | static/js/main2.js:391-418 | an entry is shown iff (the query is blank or its trimmed lower-cased form occurs in the lower-cased name or id) and (the filter is "all" or equals the department) |
| AttendanceFilter.BlankSearchShowsEverything | static/js/main2.js:401-402 | a blank query with "all" shows every entry, in both revisions, also with both controls missing in main4.js |
| AttendanceFilter.DeptFilterIsExact | static/js/main2.js:402 | under a filter other than "all" only that department is shown |
| AttendanceFilter.ShorterQueryShowsMore | static/js/main2.js:401 | a query that is a piece of another shows everything the other shows |
| AttendanceFilter.QueryCaseIgnored | static/js/main2.js:392-398 | the query's letter case does not change visibility |
| AttendanceFilter.RevisionsAgree | static/js/main4.js:99-118 | on every card or row that both revisions test, with both controls present and a non-empty selection, main4.js's test gives the same answer as main2.js's |
| AttendanceFilter.RevisionsDifferOnEmptySelection | static/js/main4.js:101 | on an empty selection main4.js filters by search only, while main2.js hides every entry that has a department |
| Cookies.Candidates | static/js/main2.js:82-84 | one slot per entry: the text after `name=` of a matching trimmed entry, nothing for any other entry |
| Cookies.CandidateAt | static/js/main2.js:82-84 | a slot is filled iff its entry matches, and then holds the entry's value |
| Cookies.Scan | static/js/main2.js:81-86 | the left-to-right pass: each filled slot replaces the value found so far by its decoded form, or stops the pass with the decoding error |
| Cookies.ScanStep | static/js/main2.js:81-86 | one step of the pass: an empty slot is skipped, an undecodable one stops it, a decodable one becomes the value carried on |
| Cookies.GetCookie | static/js/main2.js:78-89 | an empty cookie string gives null; otherwise the result is the left-to-right pass over the ';'-separated entries |
| Cookies.NotFoundIffNoMatch | static/js/main2.js:79-88 | null is returned iff no trimmed entry starts with `name=` |
| Cookies.MalformedIffUndecodableMatch | static/js/main2.js:81-86 | the lookup throws iff some matching entry's value does not decode |
| Cookies.ValueIsLastMatch | static/js/main2.js:81-86 | a returned value is the decoded value of the last matching entry |
| Cookies.EntryValueFollowsName | static/js/main2.js:83-84 | the value is the trimmed entry from offset `name.length + 1` on, before decoding |
| Cookies.LongerNameExcludesShorter | static/js/main2.js:83 | an entry for `csrftoken2` does not match `csrftoken` |
| Cookies.PaddingIgnored | static/js/main2.js:82 | blanks around an entry change neither the match nor the value |
| Cookies.ScanMalformedIff | static/js/main2.js:81-86 | the pass throws iff some candidate does not decode |
| Cookies.ScanNotFoundIff | static/js/main2.js:81-88 | the pass finds nothing iff there is no candidate and nothing carried in |
| Cookies.ScanValueIsLast | static/js/main2.js:81-86 | a value found is the decoded last candidate |
| Sliders.NextHero | static/js/main4.js:171 | the next index stays below the slide count and wraps to 0 exactly after the last slide |
| Sliders.HeroCarousel.constructor | static/js/main4.js:164-167 | the carousel starts at slide 0, which becomes active |
| Sliders.HeroCarousel.Tick | static/js/main4.js:169-173 | the index moves on modulo the count; the old slide loses and the new one gains the active class; a single active slide stays single |
| Sliders.HeroVisitsInOrder | static/js/main4.js:169-173 | after k ticks (k below the count) slide k is shown |
| Sliders.HeroPeriodic | static/js/main4.js:169-173 | the carousel repeats with period equal to the slide count |
| Sliders.NextSlide | static/js/main4.js:186-187 | the next index is 0 or leaves three cards in view, and is otherwise one more |
| Sliders.ProductSlider.constructor | static/js/main4.js:179-183 | the slider starts at 0 with width first card + 16 and no shift |
| Sliders.ProductSlider.Tick | static/js/main4.js:185-189 | the index advances with wrap and the track shifts by index × width |
| Sliders.SlideVisitsInOrder | static/js/main4.js:185-188 | with three or more cards, positions 0 … count − 3 come in order |
| Sliders.SlidePeriodic | static/js/main4.js:185-188 | the slider repeats with period count − 2 |
| Sliders.FewSlidesStayPut | static/js/main4.js:185-188 | with three cards or fewer the slider never leaves 0 |
| MessageCentre.TabFilter | static/js/main2.js:296 | a tab's non-empty `data-filter` is its filter, otherwise its lower-cased text |
| MessageCentre.OrElse | static/js/main2.js:298 | a missing or empty attribute reads as the fallback |
| MessageCentre.ConversationShown | static/js/main2.js:298-299 | a conversation is shown iff the filter is "all" or equals its `data-type` (missing reads as "") |
| MessageCentre.AllTabShowsEverything | static/js/main2.js:297-300 | the "all" filter shows every conversation |
| MessageCentre.ShownIffTypeMatches | static/js/main2.js:297-300 | under another non-empty filter a conversation is shown iff its type equals the filter |
| MessageCentre.TabsAreDisjoint | static/js/main2.js:297-300 | two different non-"all" tabs never show the same conversation |
| MessageCentre.AllTextTabShowsEverything | static/js/main2.js:296-299 | a tab without `data-filter` whose text is "All" in any case shows everything |
| MessageCentre.Outgoing | static/js/main2.js:281-282 | nothing is sent iff the input is blank (so a cleared composer sends nothing); otherwise the trimmed, non-empty text |
| MessageCentre.OutgoingIgnoresPadding | static/js/main2.js:281 | a trimmed input sends the same as the raw one |
| MessageCentre.ChatPanel.constructor | static/js/main2.js:262-264 | the panel starts from the header, message list and composer text the page's markup supplies, and records which of header and list exist |
| MessageCentre.ChatPanel.AppendMessage | static/js/main2.js:271-278 | one message is added at the end, stamped with its time or the current time, only when the panel has a message list |
| MessageCentre.ChatPanel.SendMessage | static/js/main2.js:280-285 | blank input changes nothing; otherwise the trimmed text is appended once as sent when the panel has a message list, and the input is cleared either way |
| MessageCentre.ChatPanel.OpenConversation | static/js/main2.js:304-317 | the header takes the trimmed name; the list is replaced by the trimmed snippet as one received message |
| Payroll.RowShown | static/js/main2.js:238-239 | a row is shown iff its lower-cased first cell contains the lower-cased search; so a shown row's name is at least as long as the search |
| Payroll.EmptySearchShowsAll | static/js/main2.js:236-239 | an empty search shows every row |
| Payroll.OwnNameShowsRow | static/js/main2.js:236-239 | a row is shown when searching for its own name |
| Payroll.TypingMoreHidesRows | static/js/main2.js:236-239 | a row shown for a longer search is shown for every prefix of it |
| Payroll.SearchIgnoresCase | static/js/main2.js:236-238 | the search's letter case does not matter |
| Payroll.LeadingBlankHidesUnspacedNames | static/js/main2.js:236-239 | the search is not trimmed: one starting with a blank hides every name without blanks |
| Routing.RedirectFor | smartpayapp/utils.py:3-12 | admins go to `admin_dashboard`, staff to `home`, everyone else (no profile, other role) to `login`; exactly one of the three |
| Routing.RouteName | smartpayapp/utils.py:9-12 | the URL name reversed for each route: `admin_dashboard`, `home`, `login` |
| Routing.RouteNamesDistinct | smartpayapp/utils.py:9-12 | the three URL names differ |
| Routing.RedirectIgnoresAuthentication | smartpayapp/utils.py:7-12 | the redirect depends on the profile only |
| Routing.NoProfileGoesToLogin | smartpayapp/utils.py:7-12 | a user without a profile goes to `login` |
| Access.Guarded | smartpayapp/decorators.py:3-8 | the view's own result is returned iff the user is authenticated with role "ADMIN"; otherwise Forbidden with the fixed message |
| Access.RefusalIgnoresView | smartpayapp/decorators.py:5-7 | a refused response is the same whichever view is wrapped, so the view is not consulted |
| Access.NonAdminsRefused | smartpayapp/decorators.py:5-7 | unauthenticated users, users without a profile and non-admin roles are refused |
| Access.GuardAgreesWithRedirect | smartpayapp/decorators.py:5 | a request passes iff its user is authenticated and would be redirected to the admin dashboard |
| Access.UnauthenticatedAdminRefused | smartpayapp/decorators.py:5-7 | an unauthenticated session with an admin profile is refused though the redirect would send it to the admin dashboard |
| Text.Trim | static/js/main2.js:82 | the result occurs in the input with only whitespace before and after it, and has no whitespace at either end |
| Text.TrimLowerEmptyIffBlank | static/js/main2.js:392 | the lower-cased, trimmed query is empty iff the raw query is blank |
| Text.Lower | static/js/main2.js:392 | `toLowerCase` for ASCII letters: same length, each letter A–Z mapped to a–z, every other character kept |
| Text.Contains | static/js/main2.js:401 | `includes`: the piece occurs at some offset, so it is no longer than the string |
| Text.StartsWith | static/js/main2.js:83 | `startsWith`: the prefix is the first part of the string |
| Text.TrimLowerCommute | static/js/main4.js:100 | trimming and lower-casing commute |
| Text.JoinSplit | static/js/main2.js:81 | joining the pieces of a split with the separator gives back the string |
| Text.SplitOn | static/js/main2.js:81 | splitting gives at least one piece, none containing the separator |

## Left out

- The server-side attendance rules, the leave approval workflow and the leave-balance ledger are not part of this model: none of the modelled files implements them: smartpayapp/views.py only renders templates and smartpayapp/models.py defines only Profile and SalaryAdvancerequest.
- DOM and browser plumbing: event wiring, the "active" classes of tabs and conversations, `localStorage`, scrolling, timers (`setInterval` is represented by calling `Tick`), chart set-up, and the initial click on the first conversation.
- The `fetch` call of the attendance action handler in static/js/main2.js, which is network I/O.
- Date parsing, the local time zone and `toLocaleDateString`: dates are day numbers and the displayed texts are not built.
- `decodeURIComponent` is the parameter `decode`, with `None` for a URIError.
- `nowTime` and the message time format: the current time is the parameter `now`.
- The chat bubble's markup: a message is kept as its text, kind and time, and the text is inserted as HTML unescaped in the page.
- Text.Lower: lower-cases ASCII letters only; the full Unicode case mapping of `toLowerCase` is not modelled.
- AttendanceButtons.UpdateByLabel: the hours are a natural number; a fractional or non-numeric `hrs` is not modelled.
- Sliders.ProductSlider.constructor: requires at least one card, because reading the first card's width throws on an empty track and no slider is started.
- Sliders.HeroCarousel.constructor: requires at least one slide, because the carousel is only started when slides exist.
- The chat composer is assumed present: a page with a send button but no composer input makes `sendMessage` throw a TypeError on reading the input, and that error path is not modelled.
- The two filter revisions test different elements: main4.js tests every `.employee-card[data-emp-id]` and `tr[data-emp-id]` of the document, main2.js every `.employee-card` inside the card view (with or without `data-emp-id`) and every `tr[data-emp-id]` inside the table view. The model compares the two tests on one entry and does not model which elements each revision selects.
- A payroll row without cells, for which reading its first cell throws, is not modelled.
- static/js/main.js and static/js/main1.js (two display toggles), the admin configuration, the models, forms, signals, URL table and app wiring are not part of this model.
- `reverse(...)` URL resolution: a route is represented by its name.

## Findings

| source | as written | input that shows it | evidently intended | confidence | as-written member | corrected member |
|---|---|---|---|---|---|---|
| static/js/main4.js:61-70, 82, 89 | the click handler passes "checked-in" / "checked-out", but the label test looks for "checked in" / "checked out", so every click falls into the default branch | a click on a check-in button: check-in stays enabled and check-out stays disabled | a check-in click disables check-in and enables check-out, as in static/js/main2.js:361-365 | high, not executed | AttendanceButtons.CheckInClickLeavesCheckInEnabled | AttendanceButtons.IntendedClicksMatchStateView |

The same substring test also fires inside "Not Checked In", the label the
state-driven revision shows for an employee who has not checked in: given
that label, main4.js would disable check-in (`AttendanceButtons.NotCheckedInLabelDisablesCheckIn`).
No caller of the label-driven revision passes that label, so it is not
listed as a finding; the corrected flags keep this behaviour.
