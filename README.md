# Habit tracker: a verified model of its view logic

The habit tracker is a SwiftUI app. Its logic lives in the `@State` of three
views, and this project models that state and those actions.

- **Day tracker** (`HabitsView`). It holds a list of habits, a list of
  completions `(habitId, date)`, the selected date and the new-habit text
  field. It answers "is this habit done on that day" and splits the habits
  into done and not done. Its actions toggle a completion (with a
  congratulations alert), step the date back and forward (never past today)
  and add a habit with a trimmed name.
- **Month grid** (`CalendarGridView`). It shows 42 consecutive days and
  steps the month back and forward. In the model the grid starts at the
  week that holds the first of the selected month. The code does the same
  for a Sunday-first calendar (see "## Findings").
- **Onboarding** (`OnboardingView`). It has a welcome step and a step that
  picks example habits. Continue needs at least two picks. Continue then
  creates one habit record per pick and marks onboarding as done if saving
  works.
- **Login form** (`AuthView`). It runs three checks in order, each with its
  own message. When all pass, it stores the e-mail and logs the user in.

Files:

- `dates.dfy` (module `Dates`): instants and calendar days, day steps,
  day-granularity comparison, proleptic Gregorian month starts and weekdays.
- `text.dfy` (module `Text`): Foundation's `whitespacesAndNewlines` and
  trimming by it.
- `habits.dfy` (module `Habits`): the day tracker.
- `calendar_grid.dfy` (module `CalendarGrid`): the month grid.
- `onboarding.dfy` (module `Onboarding`): onboarding.
- `auth.dfy` (module `Auth`): the login form.

How things are modelled:

- An instant is a whole number of seconds of local time. Its calendar day is
  `instant / 86400`.
- The clock (`Date()`) is a parameter named `now`.
- `UUID()` is a counter field `nextId` on each object that creates records.
  "Fresh" means the counter has not handed the identifier out before.
- The selected month is kept as a month index, because the grid only reads
  its month.
- Saving the Core Data context is a `saveSucceeds` parameter.
- `@AppStorage` and `UserDefaults` values are plain fields. The login
  form's `userDefaults` map stands only for the `"userEmail"` entry.
  `isLoggedIn` is a separate field, although `@AppStorage("isLoggedIn")`
  writes to the same `UserDefaults`.
- A view's computed properties (`incompleteHabits`, `completedHabits`,
  `allHabitsCompleted`, `canMoveForward`) are functions of the view's
  fields.

Facts about the code that the model keeps:

- `HabitsView` keeps its data in memory. There is no archiving, no
  duplicate-completion error and no per-day progress ratio.
- Nothing limits the congratulations alert to once. Dismissing it lowers
  the flag (`DismissAlert`). Un-marking and re-marking the last habit on
  today then raises it again.

## Model

| member | source | states |
|---|---|---|
| `Dates.AddDays` | HabitTracker/ContentView.swift:196-204 | moving an instant by n days moves its calendar day by exactly n and keeps its time of day |
| `Dates.CompareByDay` | HabitTracker/ContentView.swift:205 | day-granularity comparison: ascending, same or descending exactly when the first day is before, equal to or after the second |
| `Dates.MonthStartNext` | HabitTracker/ContentView.swift:296-297 | each month starts where the previous one ends: the next month's first day is this month's first day plus its length (28 to 31 days, leap years included) |
| `Text.TrimSpec` | HabitTracker/ContentView.swift:219 | trimming keeps a contiguous middle part of the name, everything cut off is whitespace or newline, and the result neither starts nor ends with one |
| `Text.TrimEmptyIff` | HabitTracker/ContentView.swift:219-220 | a name trims to empty exactly when it is all whitespace and newlines |
| `Text.TrimIdempotent` | HabitTracker/ContentView.swift:219 | trimming an already-trimmed name changes nothing |
| `Habits.HabitsWithStatusSpec` | HabitTracker/ContentView.swift:55-65 | each filter keeps exactly the habits with its completion status on the date, as a subsequence of the habit list |
| `Habits.PartitionMultiset` | HabitTracker/ContentView.swift:55-65 | counting repetitions, completed plus incomplete habits give exactly the habit list |
| `Habits.CompletedIncompletePartition` | HabitTracker/ContentView.swift:55-65 | completed and incomplete habits partition the list: no overlap, every habit in one of them, both in the original order |
| `Habits.AllCompletedIffNoneIncomplete` | HabitTracker/ContentView.swift:67-68 | all habits are completed exactly when there is a habit and none is incomplete; never for an empty list |
| `Habits.RemoveCompletionsSpec` | HabitTracker/ContentView.swift:182-184 | removal deletes every completion of the habit on that day and keeps every other completion, in order and with its multiplicity |
| `Habits.RemoveNothing` | HabitTracker/ContentView.swift:182-184 | removal where no completion matches leaves the list unchanged |
| `Habits.RemoveExactlyOne` | HabitTracker/ContentView.swift:180-184 | with at most one completion per habit and day, un-marking a completed habit deletes exactly one record |
| `Habits.ToggleFlipsOnlyThatStatus` | HabitTracker/ContentView.swift:173-192 | a toggle flips the habit's status on the selected day and leaves every other habit and day as it was |
| `Habits.ToggleTwiceRestoresStatus` | HabitTracker/ContentView.swift:179-192 | two toggles restore the status of every habit on every day |
| `Habits.ToggleTwiceFromIncomplete` | HabitTracker/ContentView.swift:179-192 | marking and then un-marking a habit restores exactly the original completion list, so no record is left over |
| `Habits.ToggleKeepsAtMostOne` | HabitTracker/ContentView.swift:179-192 | a toggle keeps at most one completion per habit and calendar day |
| `Habits.ToggleKeepsInvariant` | HabitTracker/ContentView.swift:179-192 | toggling a listed habit keeps the tracker invariant: unique habit ids, fresh ids, completions referring to listed habits, at most one per day |
| `Habits.AddKeepsInvariant` | HabitTracker/ContentView.swift:218-223 | appending a habit with a fresh id keeps the tracker invariant |
| `Habits.AlertAfterToggle` | HabitTracker/ContentView.swift:185-191 | the alert flag goes from false to true exactly when the toggle adds a completion, the date is today, and all habits are then complete; removals, past dates and incomplete days leave it, and no toggle lowers it |
| `Habits.CanMoveForward` | HabitTracker/ContentView.swift:231-236 | moving forward is allowed exactly when the selected day is before today |
| `Habits.NextDayTarget` | HabitTracker/ContentView.swift:202-210 | `nextDay` moves the date one day ahead exactly when moving forward is allowed, else leaves it; from today or earlier it never passes today |
| `Habits.NoMovingPastToday` | HabitTracker/ContentView.swift:194-210 | on today, moving forward is not allowed and `nextDay` keeps the date; `previousDay` still moves one day back |
| `Habits.HabitsView.constructor` | HabitTracker/ContentView.swift:36-41 | a fresh view has no habits, no completions, an empty text field, no toast, no alert and today as the selected date |
| `Habits.HabitsView.CheckAllHabitsCompleted` | HabitTracker/ContentView.swift:212-216 | raises the alert flag when all habits are completed on the selected date, and otherwise leaves it |
| `Habits.HabitsView.DismissAlert` | HabitTracker/ContentView.swift:165-166 | tapping "Keep it up!" lowers the alert flag through the `isPresented` binding |
| `Habits.HabitsView.ToggleHabitCompletion` | HabitTracker/ContentView.swift:179-192 | the new completions are the toggled list, the alert flag follows `AlertAfterToggle`, one id is used only when a completion is added, and the invariant holds |
| `Habits.HabitsView.PreviousDay` | HabitTracker/ContentView.swift:194-200 | the selected date moves back exactly one day, without bound |
| `Habits.HabitsView.NextDay` | HabitTracker/ContentView.swift:202-210 | the selected date becomes `NextDayTarget` of the old date and the clock |
| `Habits.HabitsView.AddHabit` | HabitTracker/ContentView.swift:218-225 | an empty trimmed name changes nothing; otherwise exactly one habit with the trimmed name, a fresh id and `isCompleted` false is appended, the field is cleared and the toast shown |
| `CalendarGrid.GridStart` | HabitTracker/ContentView.swift:299-302 | the grid's first cell is on the calendar's first weekday, at most six days before the first of the month |
| `CalendarGrid.GridStartsAgree` | HabitTracker/ContentView.swift:289-302 | the offset as written gives the same first cell whenever the month does not start before the first weekday |
| `CalendarGrid.GridStartsAgreeSundayFirst` | HabitTracker/ContentView.swift:289-302 | for a Sunday-first week, as the header row assumes, the offset as written gives the same first cell for every month |
| `CalendarGrid.AsWrittenMissesFirstOfMonth` | HabitTracker/ContentView.swift:300-302 | June 2025 starts on a Sunday; with a Monday-first calendar the offset as written is -1, and the grid starts on June 2nd |
| `CalendarGrid.GridCoversMonth` | HabitTracker/ContentView.swift:295-314 | every day of the selected month falls within the 42 cells that follow the corrected start `GridStart` |
| `CalendarGrid.CalendarGridView.constructor` | HabitTracker/ContentView.swift:284-288 | the grid starts with the given current date, selected month and first weekday |
| `CalendarGrid.CalendarGridView.DaysInMonth` | HabitTracker/ContentView.swift:295-314 | exactly 42 consecutive days from the corrected start `GridStart`; the first of the month is in the first seven cells and every day of the month is present; the first cell is the start as written whenever the month does not begin before the calendar's first weekday |
| `CalendarGrid.CalendarGridView.PreviousMonth` | HabitTracker/ContentView.swift:364-368 | the selected month moves back exactly one month, without bound |
| `CalendarGrid.CalendarGridView.NextMonth` | HabitTracker/ContentView.swift:370-374 | the selected month moves forward exactly one month, without bound |
| `Onboarding.CurrentScreen` | HabitTracker/OnboardingView.swift:103-130 | while loading, the loading view shows whatever the step; otherwise step 0 shows the welcome cards and any other step shows the selection |
| `Onboarding.ToggledSelection` | HabitTracker/OnboardingView.swift:257-263 | toggling flips membership of the habit, leaves every other name as it was, and changes the count by one |
| `Onboarding.ToggleTwiceRestores` | HabitTracker/OnboardingView.swift:257-263 | toggling a habit twice gives back the original selection |
| `Onboarding.ToggleStaysWithinExamples` | HabitTracker/OnboardingView.swift:170-174 | toggling an offered habit keeps the selection among the offered habits |
| `Onboarding.TwoTapsEnableContinue` | HabitTracker/OnboardingView.swift:195-204 | from no selection, one tap leaves Continue disabled and taps on two different habits enable it |
| `Onboarding.CreateRecords` | HabitTracker/OnboardingView.swift:275-281 | one record per selected name and no other: distinct names, consecutive fresh ids, creation time now, not archived |
| `Onboarding.OnboardingView.constructor` | HabitTracker/OnboardingView.swift:6-11 | step 0, nothing selected, not loading, no error |
| `Onboarding.OnboardingView.GetStarted` | HabitTracker/OnboardingView.swift:116-118 | "Let's Get Started" sets the step to 1 |
| `Onboarding.OnboardingView.GoBack` | HabitTracker/OnboardingView.swift:137 | the back button sets the step to 0 |
| `Onboarding.OnboardingView.ToggleHabit` | HabitTracker/OnboardingView.swift:257-263 | the selection becomes `ToggledSelection` of the old one and stays within the offered habits |
| `Onboarding.OnboardingView.SkipOnboarding` | HabitTracker/OnboardingView.swift:265-267 | sets the onboarding-completed flag unconditionally |
| `Onboarding.OnboardingView.CompleteOnboarding` | HabitTracker/OnboardingView.swift:269-291 | turns loading on, appends one new habit record per selected name and uses up one fresh id per record; sets the completed flag only if the save succeeds, else leaves it |
| `Onboarding.OnboardingView.TapContinue` | HabitTracker/OnboardingView.swift:189-202 | with fewer than two selections nothing changes; otherwise it completes onboarding |
| `Auth.AuthFailure` | HabitTracker/AuthView.swift:52-69 | the checks run in order and the first failure decides the message: the empty-field message exactly when a field is empty, the invalid-email message exactly when both are filled and there is no "@", the short-password message exactly when the earlier checks pass and the password has fewer than 6 characters, and no failure exactly when all pass |
| `Auth.AuthView.constructor` | HabitTracker/AuthView.swift:4-9 | empty fields, log-in mode, no error shown |
| `Auth.AuthView.DismissError` | HabitTracker/AuthView.swift:44-45 | tapping "OK" lowers the error flag through the `isPresented` binding |
| `Auth.AuthView.ToggleSignUp` | HabitTracker/AuthView.swift:35 | switches between log-in and sign-up mode |
| `Auth.AuthView.HandleAuth` | HabitTracker/AuthView.swift:52-74 | on a failed check it sets that check's message and shows the error, and leaves login and storage alone; on success it stores the e-mail under "userEmail", logs in, and leaves the error state alone; the sign-up mode plays no part |

## Findings

| source | as written | input that shows it | evidently intended | confidence | as-written member | corrected member |
|---|---|---|---|---|---|---|
| HabitTracker/ContentView.swift:300-302 | the grid starts `weekday(firstDay) - calendar.firstWeekday` days before the first of the month, and that offset is negative when the month starts earlier in the week than the calendar's first weekday | a Monday-first calendar (`firstWeekday` 2) and June 2025, which starts on a Sunday: the offset is -1, the grid starts on June 2nd, and June 1st is not shown | take the offset modulo 7, so the grid starts on the latest first weekday on or before the first of the month | not executed | `CalendarGrid.AsWrittenMissesFirstOfMonth` | `CalendarGrid.GridStart` |

`CalendarGridView.DaysInMonth` uses the corrected offset. The two offsets
agree for every month when the week starts on Sunday
(`CalendarGrid.GridStartsAgreeSundayFirst`). The grid's header row assumes a Sunday
start.

## Left out

- `CalendarGrid.CalendarGridView.DaysInMonth` returns the corrected grid.
  When the calendar's first weekday comes after the weekday on which the
  month starts, the code's grid starts 7 days later than the model's, and
  the model does not compute it. `CalendarGrid.GridStartAsWritten` gives
  that start, and `CalendarGrid.AsWrittenMissesFirstOfMonth` shows the
  difference for June 2025.
- View bodies, layout, colours, animations and transitions are
  presentation. This covers `ToastView`, `OnboardingCardView`,
  `HabitOptionButton`, the date formatter and the "habits selected" label
  text.
- `CompletionRingView` and `DayCell` are left out. They draw
  floating-point progress. The progress they are given is `Double.random`,
  and a constant 0.7 for today's cell.
- The timers are left out. The toast is never hidden again in the model.
  The 1.5-second onboarding delay is modelled as running at once.
- Time zones, daylight saving and calendar-dependent day lengths are not
  modelled. A day is always 86400 seconds of local time. The calendar is
  the proleptic Gregorian one with days counted from 1970-01-01.
- `calendar.date(byAdding:)` returning `nil` is not modelled. It never
  does for these inputs.
- Stepping the month keeps only the month. The day of the month inside
  `selectedMonth` is not modelled, because nothing reads it.
- `UUID()` is a counter. Uniqueness across objects and random generation
  are not modelled.
- Core Data is reduced to a list of inserted records and a save outcome.
  This covers `PersistenceController`, `HabitTrackerApp`,
  `CDHabit.completionsArray` and the managed object context.
- What happens to unsaved records after a failed save is not modelled.
  After a failed save, `isLoading` stays true, as in the code.
- `Calendar.generateDates` is not part of this model. It is a thin wrapper
  over `enumerateDates`.
- `AppStyle`, `OnboardingCard` and the onboarding components are not part
  of this model. They are constants, a UI record and shape geometry.
- Onboarding's buttons are only shown on their own screen, and nothing
  can be tapped while loading. `Onboarding.OnboardingView.GetStarted`
  shows only on step 0. `Onboarding.OnboardingView.GoBack`,
  `Onboarding.OnboardingView.ToggleHabit` and
  `Onboarding.OnboardingView.TapContinue` show only on the selection
  step. That gate is presentation, so these are modelled as callable in
  any state. For example, a second `TapContinue` while loading would
  append every record again.
- The log message printed when saving the onboarding records fails is
  output only, and is not modelled.
- The add-habit field is only shown on today. That visibility gate is
  presentation, so `AddHabit` is modelled as callable on any date.
- `Auth.AuthFailure` counts the password's length in Unicode scalars, not
  in grapheme clusters as Swift's `String.count` does. "@" containment is
  tested on characters, not on grapheme clusters.
- `Text.TrimSpec`: trimming is modelled on Unicode scalars.
