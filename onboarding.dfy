/** The onboarding flow of `OnboardingView`: a welcome step, a step that
    picks example habits (at least two to continue), and turning the pick
    into new habit records in the persistent store. */
module Onboarding {
  import opened Dates

  /** The habits offered for selection, in display order. */
  const ExampleHabits: seq<string> := [
    "Drink water", "Exercise", "Meditate", "Get 8 hours sleep", "Take vitamins",
    "Stretch", "Walk 10,000 steps", "Eat vegetables",
    "Read", "Journal", "Learn something new", "Practice gratitude", "Write goals",
    "Plan tomorrow", "No phone first hour", "Clear inbox", "Time block schedule",
    "Deep breathing", "Morning reflection", "Evening review", "Digital sunset",
    "Make bed", "Tidy space", "Cook meal", "Connect with friend"
  ]

  /** Fewest selected habits that enable Continue. */
  const MinimumSelection: nat := 2

  /** A `CDHabit` record as onboarding creates it. */
  datatype HabitRecord = HabitRecord(id: nat, name: string, createdAt: Instant, isArchived: bool)

  /** What the view shows. */
  datatype Screen = Loading | Welcome | HabitSelection

  /** The branch the view body takes. */
  function CurrentScreen(isLoading: bool, currentStep: int): (s: Screen)
    ensures isLoading ==> s == Loading
    ensures !isLoading ==> (s == Welcome <==> currentStep == 0)
    ensures !isLoading ==> (s == HabitSelection <==> currentStep != 0)
  {
    if isLoading then Loading
    else if currentStep == 0 then Welcome
    else HabitSelection
  }

  /** The selection after `toggleHabit(habit)`. */
  function ToggledSelection(selected: set<string>, habit: string): (r: set<string>)
    ensures habit in r <==> habit !in selected
    ensures forall h :: h != habit ==> (h in r <==> h in selected)
    ensures |r| == if habit in selected then |selected| - 1 else |selected| + 1
  {
    if habit in selected then selected - {habit} else selected + {habit}
  }

  /** Toggling the same habit twice gives back the original selection. */
  lemma ToggleTwiceRestores(selected: set<string>, habit: string)
    ensures ToggledSelection(ToggledSelection(selected, habit), habit) == selected
  {
    var once := ToggledSelection(selected, habit);
    var twice := ToggledSelection(once, habit);
    assert forall h :: h in twice <==> h in selected;
  }

  /** Toggling an offered habit keeps the selection among the offered ones. */
  lemma ToggleStaysWithinExamples(selected: set<string>, habit: string)
    requires selected <= set h | h in ExampleHabits
    requires habit in ExampleHabits
    ensures ToggledSelection(selected, habit) <= set h | h in ExampleHabits
  {
  }

  /** `selectedHabits.count >= 2`: the Continue button is enabled. */
  predicate ContinueEnabled(selected: set<string>)
  {
    |selected| >= MinimumSelection
  }

  /** From an empty selection one tap does not enable Continue, and taps on
      two different habits do. */
  lemma TwoTapsEnableContinue(a: string, b: string)
    requires a != b
    ensures !ContinueEnabled(ToggledSelection({}, a))
    ensures ContinueEnabled(ToggledSelection(ToggledSelection({}, a), b))
  {
  }

  /** The names of a list of records. */
  function NamesOf(records: seq<HabitRecord>): set<string>
  {
    set i | 0 <= i < |records| :: records[i].name
  }

  lemma NamesOfAppend(records: seq<HabitRecord>, r: HabitRecord)
    ensures NamesOf(records + [r]) == NamesOf(records) + {r.name}
  {
    var s := records + [r];
    assert forall i :: 0 <= i < |records| ==> s[i] == records[i];
    assert s[|records|] == r;
  }

  /** `created` holds one record per name of `names` and nothing else; the
      records have distinct names, consecutive fresh identifiers from
      `firstId` on, creation time `now`, and are not archived. */
  predicate NewRecords(created: seq<HabitRecord>, names: set<string>, firstId: nat, now: Instant)
  {
    && |created| == |names|
    && NamesOf(created) == names
    && (forall i :: 0 <= i < |created| ==> created[i] == HabitRecord(firstId + i, created[i].name, now, false))
    && (forall i, j :: 0 <= i < j < |created| ==> created[i].name != created[j].name)
  }

  /** What the loop of `CreateRecords` has built once the names outside
      `remaining` are done. */
  predicate RecordsSoFar(created: seq<HabitRecord>, remaining: set<string>, names: set<string>,
                         firstId: nat, now: Instant)
  {
    && remaining <= names
    && |created| + |remaining| == |names|
    && NamesOf(created) == names - remaining
    && (forall i :: 0 <= i < |created| ==> created[i] == HabitRecord(firstId + i, created[i].name, now, false))
    && (forall i, j :: 0 <= i < j < |created| ==> created[i].name != created[j].name)
  }

  /** One step of the loop: recording a remaining name keeps `RecordsSoFar`. */
  lemma RecordOneMore(created: seq<HabitRecord>, remaining: set<string>, names: set<string>,
                      firstId: nat, now: Instant, habitName: string)
    requires RecordsSoFar(created, remaining, names, firstId, now)
    requires habitName in remaining
    ensures RecordsSoFar(created + [HabitRecord(firstId + |created|, habitName, now, false)],
                         remaining - {habitName}, names, firstId, now)
  {
    var r := HabitRecord(firstId + |created|, habitName, now, false);
    var next := created + [r];
    NamesOfAppend(created, r);
    forall i | 0 <= i < |created|
      ensures next[i].name != habitName
    {
      assert created[i].name in NamesOf(created);
    }
  }

  /** The loop of `completeOnboarding()` over the selected names, which are
      visited in no particular order. */
  method CreateRecords(names: set<string>, firstId: nat, now: Instant) returns (created: seq<HabitRecord>)
    ensures NewRecords(created, names, firstId, now)
  {
    created := [];
    var remaining := names;
    while remaining != {}
      invariant RecordsSoFar(created, remaining, names, firstId, now)
      decreases remaining
    {
      var habitName :| habitName in remaining;
      RecordOneMore(created, remaining, names, firstId, now, habitName);
      created := created + [HabitRecord(firstId + |created|, habitName, now, false)];
      remaining := remaining - {habitName};
    }
  }

  /** The `@State` and `@AppStorage` of `OnboardingView`, together with the
      records inserted into the managed object context. `nextId` stands for
      the source of fresh identifiers (`UUID()`). */
  class OnboardingView {
    var hasCompletedOnboarding: bool
    var currentStep: int
    var selectedHabits: set<string>
    var showError: bool
    var isLoading: bool
    var context: seq<HabitRecord>
    var nextId: nat

    ghost predicate Valid()
      reads this
    {
      && selectedHabits <= (set h | h in ExampleHabits)
      && forall i :: 0 <= i < |context| ==> context[i].id < nextId
    }

    constructor (hasCompletedOnboarding: bool, context: seq<HabitRecord>, nextId: nat)
      requires forall i :: 0 <= i < |context| ==> context[i].id < nextId
      ensures Valid()
      ensures this.hasCompletedOnboarding == hasCompletedOnboarding
      ensures this.context == context && this.nextId == nextId
      ensures currentStep == 0 && selectedHabits == {} && !showError && !isLoading
    {
      this.hasCompletedOnboarding := hasCompletedOnboarding;
      this.context := context;
      this.nextId := nextId;
      currentStep := 0;
      selectedHabits := {};
      showError := false;
      isLoading := false;
    }

    /** "Let's Get Started". */
    method GetStarted()
      modifies this`currentStep
      ensures currentStep == 1
    {
      currentStep := 1;
    }

    /** The back button of the selection step. */
    method GoBack()
      modifies this`currentStep
      ensures currentStep == 0
    {
      currentStep := 0;
    }

    /** `toggleHabit(habit)`, called by the option button of an offered habit. */
    method ToggleHabit(habit: string)
      requires Valid() && habit in ExampleHabits
      modifies this`selectedHabits
      ensures Valid()
      ensures selectedHabits == ToggledSelection(old(selectedHabits), habit)
    {
      ToggleStaysWithinExamples(selectedHabits, habit);
      if habit in selectedHabits {
        selectedHabits := selectedHabits - {habit};
      } else {
        selectedHabits := selectedHabits + {habit};
      }
    }

    /** `skipOnboarding()`. */
    method SkipOnboarding()
      modifies this`hasCompletedOnboarding
      ensures hasCompletedOnboarding
    {
      hasCompletedOnboarding := true;
    }

    /** `completeOnboarding()`, with the delayed part run at once: one new
        record per selected name, then the flag is set if saving the context
        (`saveSucceeds`) works. */
    method CompleteOnboarding(now: Instant, saveSucceeds: bool)
      requires Valid()
      modifies this`isLoading, this`context, this`nextId, this`hasCompletedOnboarding
      ensures Valid() && isLoading
      ensures |old(context)| <= |context| && context == old(context) + context[|old(context)|..]
      ensures NewRecords(context[|old(context)|..], selectedHabits, old(nextId), now)
      ensures nextId == old(nextId) + |selectedHabits|
      ensures hasCompletedOnboarding == (saveSucceeds || old(hasCompletedOnboarding))
    {
      isLoading := true;
      var created := CreateRecords(selectedHabits, nextId, now);
      ghost var before := context;
      context := context + created;
      nextId := nextId + |created|;
      assert context[|before|..] == created;
      assert forall i :: |before| <= i < |context| ==> context[i] == created[i - |before|];
      if saveSucceeds {
        hasCompletedOnboarding := true;
      }
    }

    /** The Continue button: it does nothing while fewer than two habits are
        selected, and runs `completeOnboarding()` otherwise. */
    method TapContinue(now: Instant, saveSucceeds: bool)
      requires Valid()
      modifies this`isLoading, this`context, this`nextId, this`hasCompletedOnboarding
      ensures Valid()
      ensures !ContinueEnabled(selectedHabits) ==>
        isLoading == old(isLoading) && context == old(context) && nextId == old(nextId) &&
        hasCompletedOnboarding == old(hasCompletedOnboarding)
      ensures ContinueEnabled(selectedHabits) ==>
        isLoading && |old(context)| <= |context| && context == old(context) + context[|old(context)|..] &&
        NewRecords(context[|old(context)|..], selectedHabits, old(nextId), now) &&
        nextId == old(nextId) + |selectedHabits| &&
        hasCompletedOnboarding == (saveSucceeds || old(hasCompletedOnboarding))
    {
      if ContinueEnabled(selectedHabits) {
        CompleteOnboarding(now, saveSucceeds);
      }
    }
  }
}
