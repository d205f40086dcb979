/** The day tracker of `HabitsView`: habits, their completions per calendar
    day, the day-view queries, the completion toggle with its
    congratulations alert, day navigation and adding a habit. */
module Habits {
  import opened Dates
  import opened Text

  type HabitId = nat

  /** A tracked habit. `isCompleted` is carried along but never read or
      written after creation. */
  datatype Habit = Habit(id: HabitId, name: string, isCompleted: bool)

  /** A record that habit `habitId` was done on the day of `date`. */
  datatype HabitCompletion = HabitCompletion(id: nat, habitId: HabitId, date: Instant)

  // ---------------------------------------------------------------------
  // Queries

  /** Completion `c` is for habit `h` on the calendar day of `date`. */
  predicate CompletesOn(c: HabitCompletion, h: Habit, date: Instant)
  {
    c.habitId == h.id && SameDay(c.date, date)
  }

  /** `isHabitCompleted(h, on: date)`: some completion of `h` falls on the day
      of `date`. */
  predicate IsHabitCompleted(cs: seq<HabitCompletion>, h: Habit, date: Instant)
  {
    exists i :: 0 <= i < |cs| && CompletesOn(cs[i], h, date)
  }

  /** The habits whose completion status on `date` is `done`, in their
      original order: `completedHabits` for `done`, `incompleteHabits`
      otherwise. */
  function HabitsWithStatus(habits: seq<Habit>, cs: seq<HabitCompletion>, date: Instant, done: bool): seq<Habit>
  {
    if habits == [] then []
    else
      var rest := HabitsWithStatus(habits[1..], cs, date, done);
      if IsHabitCompleted(cs, habits[0], date) == done then [habits[0]] + rest else rest
  }

  function CompletedHabits(habits: seq<Habit>, cs: seq<HabitCompletion>, date: Instant): seq<Habit>
  {
    HabitsWithStatus(habits, cs, date, true)
  }

  function IncompleteHabits(habits: seq<Habit>, cs: seq<HabitCompletion>, date: Instant): seq<Habit>
  {
    HabitsWithStatus(habits, cs, date, false)
  }

  /** `allHabitsCompleted`: there is at least one habit and every habit is
      completed on `date`. */
  predicate AllHabitsCompleted(habits: seq<Habit>, cs: seq<HabitCompletion>, date: Instant)
  {
    |habits| > 0 && forall i :: 0 <= i < |habits| ==> IsHabitCompleted(cs, habits[i], date)
  }

  /** `s` keeps some of the elements of `t`, in the order they have in `t`. */
  predicate IsSubsequence<T(==)>(s: seq<T>, t: seq<T>)
    decreases |t|
  {
    s == [] ||
    (t != [] && ((s[0] == t[0] && IsSubsequence(s[1..], t[1..])) || IsSubsequence(s, t[1..])))
  }

  lemma {:induction false} SubsequenceMembers<T>(s: seq<T>, t: seq<T>)
    requires IsSubsequence(s, t)
    ensures forall x :: x in s ==> x in t
    decreases |t|
  {
    if s != [] {
      if s[0] == t[0] && IsSubsequence(s[1..], t[1..]) {
        SubsequenceMembers(s[1..], t[1..]);
        assert s == [s[0]] + s[1..];
        assert t == [t[0]] + t[1..];
      } else {
        SubsequenceMembers(s, t[1..]);
        assert t == [t[0]] + t[1..];
      }
    }
  }

  /** Each filter keeps exactly the habits with its status, in order. */
  lemma {:induction false} HabitsWithStatusSpec(habits: seq<Habit>, cs: seq<HabitCompletion>, date: Instant, done: bool)
    ensures IsSubsequence(HabitsWithStatus(habits, cs, date, done), habits)
    ensures forall h :: h in HabitsWithStatus(habits, cs, date, done) <==>
      h in habits && IsHabitCompleted(cs, h, date) == done
  {
    if habits != [] {
      HabitsWithStatusSpec(habits[1..], cs, date, done);
      assert habits == [habits[0]] + habits[1..];
    }
  }

  /** Counting repetitions, the two filters together hold the habit list. */
  lemma {:induction false} PartitionMultiset(habits: seq<Habit>, cs: seq<HabitCompletion>, date: Instant)
    ensures multiset(CompletedHabits(habits, cs, date)) + multiset(IncompleteHabits(habits, cs, date)) == multiset(habits)
  {
    if habits != [] {
      PartitionMultiset(habits[1..], cs, date);
      assert habits == [habits[0]] + habits[1..];
    }
  }

  /** `completedHabits` and `incompleteHabits` split the habit list: each
      habit lands in exactly one of them (counting repetitions), and each
      keeps the order of the habit list. */
  lemma CompletedIncompletePartition(habits: seq<Habit>, cs: seq<HabitCompletion>, date: Instant)
    ensures multiset(CompletedHabits(habits, cs, date)) + multiset(IncompleteHabits(habits, cs, date)) == multiset(habits)
    ensures forall h :: h in CompletedHabits(habits, cs, date) ==> h !in IncompleteHabits(habits, cs, date)
    ensures forall h :: h in habits ==> h in CompletedHabits(habits, cs, date) || h in IncompleteHabits(habits, cs, date)
    ensures IsSubsequence(CompletedHabits(habits, cs, date), habits)
    ensures IsSubsequence(IncompleteHabits(habits, cs, date), habits)
  {
    HabitsWithStatusSpec(habits, cs, date, true);
    HabitsWithStatusSpec(habits, cs, date, false);
    PartitionMultiset(habits, cs, date);
  }

  /** `allHabitsCompleted` holds exactly when there are habits and none of
      them is left in `incompleteHabits`; it is false for no habits. */
  lemma {:induction false} AllCompletedIffNoneIncomplete(habits: seq<Habit>, cs: seq<HabitCompletion>, date: Instant)
    ensures AllHabitsCompleted(habits, cs, date) <==> habits != [] && IncompleteHabits(habits, cs, date) == []
    ensures !AllHabitsCompleted([], cs, date)
  {
    HabitsWithStatusSpec(habits, cs, date, false);
    var inc := IncompleteHabits(habits, cs, date);
    if habits != [] && inc == [] {
      forall i | 0 <= i < |habits| ensures IsHabitCompleted(cs, habits[i], date) {
        assert habits[i] in habits;
      }
    }
    if inc != [] {
      assert inc[0] in habits && !IsHabitCompleted(cs, inc[0], date);
      var i :| 0 <= i < |habits| && habits[i] == inc[0];
    }
  }

  // ---------------------------------------------------------------------
  // Toggling a completion

  /** `habitCompletions.removeAll` over the completions of `h` on the day of
      `date`. */
  function RemoveCompletions(cs: seq<HabitCompletion>, h: Habit, date: Instant): seq<HabitCompletion>
  {
    if cs == [] then []
    else
      var rest := RemoveCompletions(cs[1..], h, date);
      if CompletesOn(cs[0], h, date) then rest else [cs[0]] + rest
  }

  /** Removal deletes every completion of `h` on that day and keeps every
      other completion, in order and with its multiplicity. */
  lemma {:induction false} RemoveCompletionsSpec(cs: seq<HabitCompletion>, h: Habit, date: Instant)
    ensures IsSubsequence(RemoveCompletions(cs, h, date), cs)
    ensures forall c :: c in RemoveCompletions(cs, h, date) <==> c in cs && !CompletesOn(c, h, date)
    ensures forall c :: !CompletesOn(c, h, date) ==>
      multiset(RemoveCompletions(cs, h, date))[c] == multiset(cs)[c]
  {
    if cs != [] {
      RemoveCompletionsSpec(cs[1..], h, date);
      assert cs == [cs[0]] + cs[1..];
    }
  }

  /** The completions after `toggleHabitCompletion(h)` on `date`, where a new
      completion would get identifier `newId`. */
  function ToggledCompletions(cs: seq<HabitCompletion>, h: Habit, date: Instant, newId: nat): seq<HabitCompletion>
  {
    if IsHabitCompleted(cs, h, date) then RemoveCompletions(cs, h, date)
    else cs + [HabitCompletion(newId, h.id, date)]
  }

  /** Toggling flips the status of `h` on that day and leaves the status of
      every other habit on every day, and of `h` on every other day, as it
      was. */
  lemma ToggleFlipsOnlyThatStatus(cs: seq<HabitCompletion>, h: Habit, date: Instant, newId: nat)
    ensures IsHabitCompleted(ToggledCompletions(cs, h, date, newId), h, date) == !IsHabitCompleted(cs, h, date)
    ensures forall g: Habit, e: Instant :: !(g.id == h.id && SameDay(e, date)) ==>
      IsHabitCompleted(ToggledCompletions(cs, h, date, newId), g, e) == IsHabitCompleted(cs, g, e)
  {
    var t := ToggledCompletions(cs, h, date, newId);
    RemoveCompletionsSpec(cs, h, date);
    if IsHabitCompleted(cs, h, date) {
      forall g: Habit, e: Instant | !(g.id == h.id && SameDay(e, date))
        ensures IsHabitCompleted(t, g, e) == IsHabitCompleted(cs, g, e)
      {
        if IsHabitCompleted(cs, g, e) {
          var i :| 0 <= i < |cs| && CompletesOn(cs[i], g, e);
          assert cs[i] in t;
          var k :| 0 <= k < |t| && t[k] == cs[i];
        }
        if IsHabitCompleted(t, g, e) {
          var k :| 0 <= k < |t| && CompletesOn(t[k], g, e);
          assert t[k] in cs;
          var i :| 0 <= i < |cs| && cs[i] == t[k];
        }
      }
    } else {
      assert CompletesOn(t[|cs|], h, date);
      forall g: Habit, e: Instant | !(g.id == h.id && SameDay(e, date))
        ensures IsHabitCompleted(t, g, e) == IsHabitCompleted(cs, g, e)
      {
        if IsHabitCompleted(t, g, e) {
          var k :| 0 <= k < |t| && CompletesOn(t[k], g, e);
          assert k < |cs| && t[k] == cs[k];
        }
        if IsHabitCompleted(cs, g, e) {
          var i :| 0 <= i < |cs| && CompletesOn(cs[i], g, e);
          assert t[i] == cs[i];
        }
      }
    }
  }

  /** Toggling the same habit on the same day twice gives every habit on
      every day its original status back. */
  lemma ToggleTwiceRestoresStatus(cs: seq<HabitCompletion>, h: Habit, date: Instant, id1: nat, id2: nat, g: Habit, e: Instant)
    ensures IsHabitCompleted(ToggledCompletions(ToggledCompletions(cs, h, date, id1), h, date, id2), g, e)
      == IsHabitCompleted(cs, g, e)
  {
    var t := ToggledCompletions(cs, h, date, id1);
    ToggleFlipsOnlyThatStatus(cs, h, date, id1);
    ToggleFlipsOnlyThatStatus(t, h, date, id2);
    if g.id == h.id && SameDay(e, date) {
      // both toggles act on the status of (g, e), which is that of (h, date)
      assert forall c :: CompletesOn(c, g, e) <==> CompletesOn(c, h, date);
    }
  }

  /** A habit that was not completed that day comes back to exactly the
      original completion list after two toggles: no record is left over. */
  lemma ToggleTwiceFromIncomplete(cs: seq<HabitCompletion>, h: Habit, date: Instant, id1: nat, id2: nat)
    requires !IsHabitCompleted(cs, h, date)
    ensures ToggledCompletions(ToggledCompletions(cs, h, date, id1), h, date, id2) == cs
  {
    var t := cs + [HabitCompletion(id1, h.id, date)];
    assert CompletesOn(t[|cs|], h, date);
    assert RemoveCompletions(t, h, date) == cs by {
      RemoveAppended(cs, h, date, HabitCompletion(id1, h.id, date));
    }
  }

  lemma {:induction false} RemoveAppended(cs: seq<HabitCompletion>, h: Habit, date: Instant, c: HabitCompletion)
    requires !IsHabitCompleted(cs, h, date) && CompletesOn(c, h, date)
    ensures RemoveCompletions(cs + [c], h, date) == cs
  {
    if cs == [] {
      assert [c][1..] == [];
    } else {
      assert !CompletesOn(cs[0], h, date);
      RemoveAppended(cs[1..], h, date, c);
      assert (cs + [c])[1..] == cs[1..] + [c];
      assert cs == [cs[0]] + cs[1..];
    }
  }

  /** Removing completions where there are none changes nothing. */
  lemma {:induction false} RemoveNothing(cs: seq<HabitCompletion>, h: Habit, date: Instant)
    requires !IsHabitCompleted(cs, h, date)
    ensures RemoveCompletions(cs, h, date) == cs
  {
    if cs != [] {
      assert !CompletesOn(cs[0], h, date);
      RemoveNothing(cs[1..], h, date);
      assert cs == [cs[0]] + cs[1..];
    }
  }

  /** With at most one completion per habit and day, un-marking a completed
      habit deletes exactly one record. */
  lemma {:induction false} RemoveExactlyOne(cs: seq<HabitCompletion>, h: Habit, date: Instant)
    requires AtMostOnePerDay(cs) && IsHabitCompleted(cs, h, date)
    ensures |RemoveCompletions(cs, h, date)| == |cs| - 1
  {
    var tail := cs[1..];
    if CompletesOn(cs[0], h, date) {
      RemoveNothing(tail, h, date);
    } else {
      var k :| 0 <= k < |cs| && CompletesOn(cs[k], h, date);
      assert tail[k - 1] == cs[k];
      assert AtMostOnePerDay(tail) by {
        forall i, j | 0 <= i < j < |tail| && tail[i].habitId == tail[j].habitId
          ensures !SameDay(tail[i].date, tail[j].date)
        {
          assert tail[i] == cs[i + 1] && tail[j] == cs[j + 1];
        }
      }
      RemoveExactlyOne(tail, h, date);
    }
  }

  /** No two completions of the same habit fall on the same calendar day. */
  predicate AtMostOnePerDay(cs: seq<HabitCompletion>)
  {
    forall i, j :: 0 <= i < j < |cs| && cs[i].habitId == cs[j].habitId ==> !SameDay(cs[i].date, cs[j].date)
  }

  lemma {:induction false} SubsequenceAtMostOne(s: seq<HabitCompletion>, t: seq<HabitCompletion>)
    requires IsSubsequence(s, t) && AtMostOnePerDay(t)
    ensures AtMostOnePerDay(s)
    decreases |t|
  {
    if s != [] {
      if s[0] == t[0] && IsSubsequence(s[1..], t[1..]) {
        assert AtMostOnePerDay(t[1..]) by {
          forall i, j | 0 <= i < j < |t[1..]| && t[1..][i].habitId == t[1..][j].habitId
            ensures !SameDay(t[1..][i].date, t[1..][j].date)
          {
            assert t[1..][i] == t[i + 1] && t[1..][j] == t[j + 1];
          }
        }
        SubsequenceAtMostOne(s[1..], t[1..]);
        SubsequenceMembers(s[1..], t[1..]);
        forall i, j | 0 <= i < j < |s| && s[i].habitId == s[j].habitId
          ensures !SameDay(s[i].date, s[j].date)
        {
          if i == 0 {
            assert s[j] == s[1..][j - 1];
            assert s[j] in t[1..];
            var k :| 0 <= k < |t[1..]| && t[1..][k] == s[j];
            assert t[k + 1] == s[j];
          } else {
            assert s[i] == s[1..][i - 1] && s[j] == s[1..][j - 1];
          }
        }
      } else {
        assert AtMostOnePerDay(t[1..]) by {
          forall i, j | 0 <= i < j < |t[1..]| && t[1..][i].habitId == t[1..][j].habitId
            ensures !SameDay(t[1..][i].date, t[1..][j].date)
          {
            assert t[1..][i] == t[i + 1] && t[1..][j] == t[j + 1];
          }
        }
        SubsequenceAtMostOne(s, t[1..]);
      }
    }
  }

  /** Toggling keeps at most one completion per habit and day. */
  lemma ToggleKeepsAtMostOne(cs: seq<HabitCompletion>, h: Habit, date: Instant, newId: nat)
    requires AtMostOnePerDay(cs)
    ensures AtMostOnePerDay(ToggledCompletions(cs, h, date, newId))
  {
    if IsHabitCompleted(cs, h, date) {
      RemoveCompletionsSpec(cs, h, date);
      SubsequenceAtMostOne(RemoveCompletions(cs, h, date), cs);
    } else {
      var t := ToggledCompletions(cs, h, date, newId);
      forall i, j | 0 <= i < j < |t| && t[i].habitId == t[j].habitId
        ensures !SameDay(t[i].date, t[j].date)
      {
        if j == |cs| {
          assert !CompletesOn(cs[i], h, date);
        } else {
          assert t[i] == cs[i] && t[j] == cs[j];
        }
      }
    }
  }

  /** The congratulations flag after `toggleHabitCompletion(h)` on `date`
      when it was `alert` before: an added completion on today's date that
      leaves every habit completed raises it; nothing lowers it. */
  function AlertAfterToggle(habits: seq<Habit>, cs: seq<HabitCompletion>, h: Habit, date: Instant,
                            newId: nat, now: Instant, alert: bool): (r: bool)
    ensures r != alert <==>
      !alert && !IsHabitCompleted(cs, h, date) && IsDateInToday(date, now) &&
      AllHabitsCompleted(habits, ToggledCompletions(cs, h, date, newId), date)
    ensures alert ==> r
  {
    if IsHabitCompleted(cs, h, date) then alert
    else if IsDateInToday(date, now) && AllHabitsCompleted(habits, cs + [HabitCompletion(newId, h.id, date)], date) then true
    else alert
  }

  // ---------------------------------------------------------------------
  // Day navigation

  /** `canMoveForward`: the day after `selectedDate` is today or earlier. */
  function CanMoveForward(selectedDate: Instant, now: Instant): (r: bool)
    ensures r <==> Day(selectedDate) < Day(now)
  {
    var next := AddDays(selectedDate, 1);
    IsDateInToday(next, now) || CompareByDay(next, now) == OrderedAscending
  }

  /** `selectedDate` after `nextDay()`. */
  function NextDayTarget(selectedDate: Instant, now: Instant): (r: Instant)
    ensures r == selectedDate || Day(r) == Day(selectedDate) + 1
    ensures r != selectedDate <==> CanMoveForward(selectedDate, now)
    ensures Day(selectedDate) <= Day(now) ==> Day(r) <= Day(now)
  {
    var next := AddDays(selectedDate, 1);
    if IsDateInToday(next, now) || CompareByDay(next, now) == OrderedAscending then next else selectedDate
  }

  /** From today the view cannot move forward, and `nextDay()` stays put. */
  lemma NoMovingPastToday(now: Instant, t: Instant)
    requires IsDateInToday(t, now)
    ensures !CanMoveForward(t, now) && NextDayTarget(t, now) == t
    ensures Day(AddDays(t, -1)) == Day(now) - 1
  {
  }

  // ---------------------------------------------------------------------
  // The view state

  /** No two habits share an identifier. */
  predicate HabitIdsUnique(habits: seq<Habit>)
  {
    forall i, j :: 0 <= i < j < |habits| ==> habits[i].id != habits[j].id
  }

  /** Every completion belongs to a habit of the list. */
  predicate CompletionsReferToHabits(habits: seq<Habit>, cs: seq<HabitCompletion>)
  {
    forall k :: 0 <= k < |cs| ==> cs[k].habitId in IdsOf(habits)
  }

  /** The identifiers of a list of habits. */
  function IdsOf(habits: seq<Habit>): set<HabitId>
  {
    set h | h in habits :: h.id
  }

  /** The invariant of the day tracker's state: unique habit identifiers,
      every identifier below the next fresh one, every completion belonging
      to a listed habit, at most one completion per habit and day. */
  predicate TrackerInvariant(habits: seq<Habit>, cs: seq<HabitCompletion>, nextId: nat)
  {
    && HabitIdsUnique(habits)
    && (forall i :: 0 <= i < |habits| ==> habits[i].id < nextId)
    && (forall k :: 0 <= k < |cs| ==> cs[k].id < nextId)
    && CompletionsReferToHabits(habits, cs)
    && AtMostOnePerDay(cs)
  }

  /** Toggling a listed habit keeps the invariant, with one identifier used
      up exactly when a completion is added. */
  lemma ToggleKeepsInvariant(habits: seq<Habit>, cs: seq<HabitCompletion>, h: Habit, date: Instant, nextId: nat)
    requires TrackerInvariant(habits, cs, nextId) && h in habits
    ensures TrackerInvariant(habits, ToggledCompletions(cs, h, date, nextId),
                             nextId + (if IsHabitCompleted(cs, h, date) then 0 else 1))
  {
    ToggleKeepsAtMostOne(cs, h, date, nextId);
    var t := ToggledCompletions(cs, h, date, nextId);
    if IsHabitCompleted(cs, h, date) {
      RemoveCompletionsSpec(cs, h, date);
      forall k | 0 <= k < |t|
        ensures t[k].id < nextId && t[k].habitId in IdsOf(habits)
      {
        assert t[k] in cs;
        var j :| 0 <= j < |cs| && cs[j] == t[k];
      }
    } else {
      assert forall k :: 0 <= k < |cs| ==> t[k] == cs[k];
      assert t[|cs|].habitId in IdsOf(habits);
    }
  }

  /** Appending a habit with a fresh identifier keeps the invariant. */
  lemma AddKeepsInvariant(habits: seq<Habit>, cs: seq<HabitCompletion>, name: string, nextId: nat)
    requires TrackerInvariant(habits, cs, nextId)
    ensures TrackerInvariant(habits + [Habit(nextId, name, false)], cs, nextId + 1)
  {
    var hs := habits + [Habit(nextId, name, false)];
    assert forall i :: 0 <= i < |habits| ==> hs[i] == habits[i];
    assert HabitIdsUnique(hs);
    assert IdsOf(habits) <= IdsOf(hs);
  }

  /** The `@State` of `HabitsView`. `nextId` stands for the source of fresh
      identifiers (`UUID()`): every identifier handed out so far is below it. */
  class HabitsView {
    var habits: seq<Habit>
    var habitCompletions: seq<HabitCompletion>
    var newHabitName: string
    var showToast: bool
    var showCompletionAlert: bool
    var selectedDate: Instant
    var nextId: nat

    ghost predicate Valid()
      reads this
    {
      TrackerInvariant(habits, habitCompletions, nextId)
    }

    /** A fresh view, on today's date. */
    constructor (now: Instant)
      ensures Valid()
      ensures habits == [] && habitCompletions == [] && newHabitName == ""
      ensures !showToast && !showCompletionAlert && selectedDate == now
    {
      habits := [];
      habitCompletions := [];
      newHabitName := "";
      showToast := false;
      showCompletionAlert := false;
      selectedDate := now;
      nextId := 0;
    }

    /** `checkAllHabitsCompleted()`. */
    method CheckAllHabitsCompleted()
      modifies this`showCompletionAlert
      ensures showCompletionAlert == (old(showCompletionAlert) || AllHabitsCompleted(habits, habitCompletions, selectedDate))
    {
      if AllHabitsCompleted(habits, habitCompletions, selectedDate) {
        showCompletionAlert := true;
      }
    }

    /** Tapping "Keep it up!": the alert's `isPresented` binding sets the
        flag back to false. */
    method DismissAlert()
      modifies this`showCompletionAlert
      ensures !showCompletionAlert
    {
      showCompletionAlert := false;
    }

    /** `toggleHabitCompletion(habit)`, tapped in a row of the habit list. */
    method ToggleHabitCompletion(habit: Habit, now: Instant)
      requires Valid() && habit in habits
      modifies this`habitCompletions, this`showCompletionAlert, this`nextId
      ensures Valid()
      ensures habitCompletions == ToggledCompletions(old(habitCompletions), habit, selectedDate, old(nextId))
      ensures showCompletionAlert ==
        AlertAfterToggle(habits, old(habitCompletions), habit, selectedDate, old(nextId), now, old(showCompletionAlert))
      ensures nextId == old(nextId) + (if IsHabitCompleted(old(habitCompletions), habit, selectedDate) then 0 else 1)
    {
      ToggleKeepsInvariant(habits, habitCompletions, habit, selectedDate, nextId);
      if IsHabitCompleted(habitCompletions, habit, selectedDate) {
        habitCompletions := RemoveCompletions(habitCompletions, habit, selectedDate);
      } else {
        habitCompletions := habitCompletions + [HabitCompletion(nextId, habit.id, selectedDate)];
        nextId := nextId + 1;
        if IsDateInToday(selectedDate, now) {
          CheckAllHabitsCompleted();
        }
      }
    }

    /** `previousDay()`: always one day back. */
    method PreviousDay()
      modifies this`selectedDate
      ensures selectedDate == AddDays(old(selectedDate), -1)
      ensures Day(selectedDate) == Day(old(selectedDate)) - 1
    {
      selectedDate := AddDays(selectedDate, -1);
    }

    /** `nextDay()`: one day forward unless that day is after today. */
    method NextDay(now: Instant)
      modifies this`selectedDate
      ensures selectedDate == NextDayTarget(old(selectedDate), now)
    {
      var newDate := AddDays(selectedDate, 1);
      if IsDateInToday(newDate, now) || CompareByDay(newDate, now) == OrderedAscending {
        selectedDate := newDate;
      }
    }

    /** `addHabit()`: appends a habit named by the trimmed text field, unless
        that is empty. */
    method AddHabit()
      requires Valid()
      modifies this`habits, this`newHabitName, this`showToast, this`nextId
      ensures Valid()
      ensures Trim(old(newHabitName)) == [] ==>
        habits == old(habits) && newHabitName == old(newHabitName) &&
        showToast == old(showToast) && nextId == old(nextId)
      ensures Trim(old(newHabitName)) != [] ==>
        habits == old(habits) + [Habit(old(nextId), Trim(old(newHabitName)), false)] &&
        newHabitName == "" && showToast && nextId == old(nextId) + 1
    {
      var habit := Trim(newHabitName);
      if habit == [] {
        return;
      }
      AddKeepsInvariant(habits, habitCompletions, habit, nextId);
      habits := habits + [Habit(nextId, habit, false)];
      nextId := nextId + 1;
      newHabitName := "";
      showToast := true;
    }
  }
}
