/** The component's state and its event handlers as pure transitions: each
    handler maps the state it runs against to the state it leaves behind.
    The `App` class in module AppComponent performs the same transitions in
    place; the lemmas here state what follows from them over many events. */
module Handlers {
  import opened Wrappers
  import opened Lists
  import opened JsText
  import opened Tasks

  /** The three `useState` slots of the component. */
  datatype AppState = AppState(tasks: seq<Task>, selected: Option<Task>, newTaskName: string)

  /** What the component renders. */
  datatype View = ListMode | DetailMode

  /** `if (selectedTask)`: the detail view exactly when a task is selected. */
  function ViewOf(s: AppState): (v: View)
    ensures v == DetailMode <==> s.selected.Some?
    ensures v == ListMode <==> s.selected.None?
  {
    if s.selected.Some? then DetailMode else ListMode
  }

  /** The initial state: the stored task list if there is one (already
      parsed), nothing selected and an empty input. */
  function Initial(saved: Option<seq<Task>>): (s: AppState)
    ensures s.tasks == (if saved.Some? then saved.value else [])
    ensures ViewOf(s) == ListMode && s.newTaskName == ""
  {
    AppState(if saved.Some? then saved.value else [], None, "")
  }

  /** The selected task, if any, is one of the listed tasks. */
  predicate SelectionInTasks(s: AppState)
  {
    s.selected.Some? ==> s.selected.value in s.tasks
  }

  /** No task has negative XP. */
  predicate XpNonNegative(s: AppState)
  {
    forall i :: 0 <= i < |s.tasks| ==> s.tasks[i].xp >= 0
  }

  /** Every task is named by a non-blank text. */
  predicate NamesNonBlank(s: AppState)
  {
    forall i :: 0 <= i < |s.tasks| ==> !AllSpace(s.tasks[i].name)
  }

  /** The invariant every handler preserves. */
  predicate Inv(s: AppState)
  {
    SelectionInTasks(s) && XpNonNegative(s) && NamesNonBlank(s)
  }

  /** `addTask`, with `id` the clock reading `Date.now()`. A blank input is
      ignored; otherwise exactly one fresh task named by the input, verbatim,
      is appended and the input is cleared. */
  function AddTask(s: AppState, id: int): (r: AppState)
    ensures AllSpace(s.newTaskName) ==> r == s
    ensures !AllSpace(s.newTaskName) ==>
      && |r.tasks| == |s.tasks| + 1
      && r.tasks[..|s.tasks|] == s.tasks
      && var t := r.tasks[|s.tasks|];
         t.id == id && t.name == s.newTaskName && t.lastWork == "" && t.resources == [] && t.xp == 0
    ensures !AllSpace(s.newTaskName) ==> r.selected == s.selected && r.newTaskName == ""
  {
    TrimEmptyIffBlank(s.newTaskName);
    if Trim(s.newTaskName) == [] then s
    else s.(tasks := s.tasks + [NewTask(id, s.newTaskName)], newTaskName := "")
  }

  /** A fresh clock reading keeps the ids unique. */
  lemma AddTaskKeepsIdsUnique(s: AppState, id: int)
    requires IdsUnique(s.tasks) && id !in Ids(s.tasks)
    ensures IdsUnique(AddTask(s, id).tasks)
  {
    var r := AddTask(s, id);
    if !AllSpace(s.newTaskName) {
      forall i, j | 0 <= i < j < |r.tasks| ensures r.tasks[i].id != r.tasks[j].id {
        if j == |s.tasks| {
          assert r.tasks[i] == s.tasks[i] && Ids(s.tasks)[i] == s.tasks[i].id;
        } else {
          assert r.tasks[i] == s.tasks[i] && r.tasks[j] == s.tasks[j];
        }
      }
    }
  }

  /** `deleteTask(id)`: every task with that id goes, every other one stays
      in its order, and the selection is cleared in every case. */
  function DeleteTask(s: AppState, id: int): (r: AppState)
    ensures forall i :: 0 <= i < |r.tasks| ==> r.tasks[i] in s.tasks && r.tasks[i].id != id
    ensures forall i :: 0 <= i < |s.tasks| && s.tasks[i].id != id ==> s.tasks[i] in r.tasks
    ensures IsSubsequence(r.tasks, s.tasks)
    ensures |r.tasks| == |s.tasks| - Matches(s.tasks, id)
    ensures r.selected == None && r.newTaskName == s.newTaskName
  {
    RemoveIdLength(s.tasks, id);
    s.(tasks := RemoveId(s.tasks, id), selected := None)
  }

  /** Deleting a present id from a list with unique ids removes exactly one
      task and keeps the ids unique. */
  lemma DeletePresentTask(s: AppState, id: int)
    requires IdsUnique(s.tasks) && id in Ids(s.tasks)
    ensures |DeleteTask(s, id).tasks| == |s.tasks| - 1
    ensures id !in Ids(DeleteTask(s, id).tasks)
    ensures IdsUnique(DeleteTask(s, id).tasks)
  {
    MatchesUnique(s.tasks, id);
    RemoveIdKeepsUnique(s.tasks, id);
  }

  /** `updateSelectedTask(field, value)`: the field is overwritten on every
      task carrying the selected id and on the selection, nothing else
      changes, and a selection taken from the list is still in it. */
  function UpdateSelectedTask(s: AppState, f: Field): (r: AppState)
    requires s.selected.Some?
    ensures |r.tasks| == |s.tasks|
    ensures forall i :: 0 <= i < |s.tasks| ==>
      r.tasks[i] == if s.tasks[i].id == s.selected.value.id then With(s.tasks[i], f) else s.tasks[i]
    ensures r.selected == Some(With(s.selected.value, f))
    ensures forall k :: 0 <= k < |s.tasks| && s.tasks[k] == s.selected.value ==> r.tasks[k] == r.selected.value
    ensures SelectionInTasks(s) ==> SelectionInTasks(r)
    ensures r.newTaskName == s.newTaskName
  {
    var sel := s.selected.value;
    var tasks := MapWhere(s.tasks, sel.id, f);
    assert sel in s.tasks ==> With(sel, f) in tasks by {
      if sel in s.tasks {
        var k :| 0 <= k < |s.tasks| && s.tasks[k] == sel;
        assert tasks[k] == With(sel, f);
      }
    }
    s.(tasks := tasks, selected := Some(With(sel, f)))
  }

  /** `addResource`, with `answer` the result of the URL prompt: a cancelled
      or empty answer is ignored; otherwise the URL is appended to the
      selected task's resources and written back by `updateSelectedTask`. */
  function AddResource(s: AppState, answer: Option<string>): (r: AppState)
    requires s.selected.Some?
    ensures answer == None || answer == Some("") ==> r == s
    ensures answer.Some? && answer.value != "" ==>
      r == UpdateSelectedTask(s, Resources(s.selected.value.resources + [answer.value]))
    ensures r.selected.Some?
    ensures r.selected.value.resources ==
      s.selected.value.resources + (if answer.Some? && answer.value != "" then [answer.value] else [])
  {
    if answer.Some? && answer.value != "" then
      UpdateSelectedTask(s, Resources(s.selected.value.resources + [answer.value]))
    else s
  }

  /** `deleteResource(url)`: every copy of `url` leaves the selected task's
      resources, the other entries keep their order and multiplicity, and
      the result is written back by `updateSelectedTask`. */
  function DeleteResource(s: AppState, url: string): (r: AppState)
    requires s.selected.Some?
    ensures r == UpdateSelectedTask(s, Resources(RemoveUrl(s.selected.value.resources, url)))
    ensures r.selected.Some? && url !in r.selected.value.resources
    ensures |r.selected.value.resources| == |s.selected.value.resources| - multiset(s.selected.value.resources)[url]
    ensures forall x :: x != url ==> multiset(r.selected.value.resources)[x] == multiset(s.selected.value.resources)[x]
    ensures IsSubsequence(r.selected.value.resources, s.selected.value.resources)
  {
    RemoveUrlLength(s.selected.value.resources, url);
    UpdateSelectedTask(s, Resources(RemoveUrl(s.selected.value.resources, url)))
  }

  /** `gainXP`: the selected task's XP goes up by exactly 10, written back
      by `updateSelectedTask`. */
  function GainXP(s: AppState): (r: AppState)
    requires s.selected.Some?
    ensures r == UpdateSelectedTask(s, Xp(s.selected.value.xp + 10))
    ensures r.selected.Some? && r.selected.value.id == s.selected.value.id
    ensures r.selected.value.xp == s.selected.value.xp + 10
  {
    UpdateSelectedTask(s, Xp(s.selected.value.xp + 10))
  }

  /** `pickRandomTask`, with `roll` the index `Math.floor(Math.random() *
      tasks.length)`: nothing happens on an empty list, otherwise the task
      at that index becomes the selection. */
  function PickRandomTask(s: AppState, roll: nat): (r: AppState)
    requires s.tasks != [] ==> roll < |s.tasks|
    ensures s.tasks == [] ==> r == s
    ensures s.tasks != [] ==> r.selected.Some? && r.selected.value in s.tasks && r.selected.value == s.tasks[roll]
    ensures r.tasks == s.tasks && r.newTaskName == s.newTaskName
    ensures SelectionInTasks(s) ==> SelectionInTasks(r)
  {
    if |s.tasks| == 0 then s else s.(selected := Some(s.tasks[roll]))
  }

  /** The user actions the rendered page offers. `ClickAdd` carries the
      clock reading, `ClickCard` the index of the clicked card,
      `ClickAddResource` the prompt's answer and `ClickPickRandom` the
      random index. */
  datatype Event =
    | TypeName(text: string)
    | ClickAdd(clock: int)
    | ClickPickRandom(roll: nat)
    | ClickCard(index: nat)
    | EditNote(note: string)
    | ClickGainXP
    | ClickAddResource(answer: Option<string>)
    | ClickDeleteResource(url: string)
    | ClickBack
    | ClickDelete

  /** The events whose controls only the detail view renders: the note, the
      XP and resource buttons, "Back" and "Delete Task". */
  predicate OnDetailView(e: Event)
  {
    e.EditNote? || e.ClickGainXP? || e.ClickAddResource? || e.ClickDeleteResource? || e.ClickBack? || e.ClickDelete?
  }

  /** An event can happen only when the view that renders its control is
      shown, and indices lie within the list. */
  predicate Enabled(s: AppState, e: Event)
  {
    match e
    case TypeName(_) => s.selected.None?
    case ClickAdd(_) => s.selected.None?
    case ClickPickRandom(roll) => s.selected.None? && (s.tasks != [] ==> roll < |s.tasks|)
    case ClickCard(index) => s.selected.None? && index < |s.tasks|
    case _ => s.selected.Some?
  }

  /** The state after one event: each control calls its handler. */
  function Step(s: AppState, e: Event): AppState
    requires Enabled(s, e)
  {
    match e
    case TypeName(text) => s.(newTaskName := text)
    case ClickAdd(clock) => AddTask(s, clock)
    case ClickPickRandom(roll) => PickRandomTask(s, roll)
    case ClickCard(index) => s.(selected := Some(s.tasks[index]))
    case EditNote(note) => UpdateSelectedTask(s, LastWork(note))
    case ClickGainXP => GainXP(s)
    case ClickAddResource(answer) => AddResource(s, answer)
    case ClickDeleteResource(url) => DeleteResource(s, url)
    case ClickBack => s.(selected := None)
    case ClickDelete => DeleteTask(s, s.selected.value.id)
  }

  /** Which view each event needs and how it moves between the views: the
      detail-view controls exist only while a task is selected, the others
      only while none is; typing and adding stay in
      the list view, a card opens the detail view on the clicked task, a
      random pick opens it unless the list is empty, the edits stay in the
      detail view, and "Back" and "Delete Task" return to the list. The
      inline handlers leave the list alone. */
  lemma StepView(s: AppState, e: Event)
    requires Enabled(s, e)
    ensures ViewOf(s) == (if OnDetailView(e) then DetailMode else ListMode)
    ensures var r := Step(s, e);
      && (e.TypeName? || e.ClickAdd? ==> ViewOf(r) == ListMode)
      && (e.ClickPickRandom? ==> (ViewOf(r) == DetailMode <==> s.tasks != []))
      && (e.ClickCard? ==> ViewOf(r) == DetailMode && r.selected.value == s.tasks[e.index])
      && (e.EditNote? || e.ClickGainXP? || e.ClickAddResource? || e.ClickDeleteResource? ==> ViewOf(r) == DetailMode)
      && (e.ClickBack? || e.ClickDelete? ==> ViewOf(r) == ListMode)
      && (e.TypeName? ==> r.tasks == s.tasks && r.newTaskName == e.text)
      && (e.ClickPickRandom? || e.ClickCard? || e.ClickBack? ==> r.tasks == s.tasks && r.newTaskName == s.newTaskName)
  {
  }

  /** Every event of `es` is enabled when it comes. */
  predicate Runnable(s: AppState, es: seq<Event>)
    decreases |es|
  {
    es == [] || (Enabled(s, es[0]) && Runnable(Step(s, es[0]), es[1..]))
  }

  /** The state after the events `es`, handled one at a time. */
  function Run(s: AppState, es: seq<Event>): AppState
    requires Runnable(s, es)
    decreases |es|
  {
    if es == [] then s else Run(Step(s, es[0]), es[1..])
  }

  /** Adding a task keeps the invariant: the new task starts at 0 XP. */
  lemma AddTaskKeepsInv(s: AppState, id: int)
    requires Inv(s)
    ensures Inv(AddTask(s, id))
  {
    var r := AddTask(s, id);
    if !AllSpace(s.newTaskName) {
      forall i | 0 <= i < |r.tasks| ensures r.tasks[i].xp >= 0 && !AllSpace(r.tasks[i].name) {
        if i < |s.tasks| { assert r.tasks[i] == r.tasks[..|s.tasks|][i]; }
      }
      if s.selected.Some? {
        var k :| 0 <= k < |s.tasks| && s.tasks[k] == s.selected.value;
        assert r.tasks[k] == r.tasks[..|s.tasks|][k];
      }
    }
  }

  /** Deleting a task keeps the invariant: what remains was there before. */
  lemma DeleteTaskKeepsInv(s: AppState, id: int)
    requires Inv(s)
    ensures Inv(DeleteTask(s, id))
  {
    var r := DeleteTask(s, id);
    forall i | 0 <= i < |r.tasks| ensures r.tasks[i].xp >= 0 && !AllSpace(r.tasks[i].name) {
      var k :| 0 <= k < |s.tasks| && s.tasks[k] == r.tasks[i];
    }
  }

  /** Updating the selection keeps the invariant when a new XP value is not
      negative: no field update touches a name. */
  lemma UpdateKeepsInv(s: AppState, f: Field)
    requires Inv(s) && s.selected.Some? && (f.Xp? ==> f.points >= 0)
    ensures Inv(UpdateSelectedTask(s, f))
  {
  }

  /** A step that keeps the list and selects one of its tasks, or none,
      keeps the invariant. */
  lemma SameTasksKeepsInv(s: AppState, r: AppState)
    requires Inv(s) && r.tasks == s.tasks && (r.selected.Some? ==> r.selected.value in s.tasks)
    ensures Inv(r)
  {
    assert XpNonNegative(r) && NamesNonBlank(r);
  }

  /** The inline handlers (typing, opening a card, "Back") and the random
      pick keep the invariant: they select a listed task or none. */
  lemma NavigationKeepsInv(s: AppState, e: Event)
    requires Inv(s) && Enabled(s, e)
    requires e.TypeName? || e.ClickPickRandom? || e.ClickCard? || e.ClickBack?
    ensures Inv(Step(s, e))
  {
    SameTasksKeepsInv(s, Step(s, e));
  }

  /** The selected task, being listed, has non-negative XP. */
  lemma SelectedXpNonNegative(s: AppState)
    requires Inv(s) && s.selected.Some?
    ensures s.selected.value.xp >= 0
  {
    var k :| 0 <= k < |s.tasks| && s.tasks[k] == s.selected.value;
  }

  /** "+ Gain XP" keeps the invariant: XP only grows. */
  lemma GainXPKeepsInv(s: AppState)
    requires Inv(s) && s.selected.Some?
    ensures Inv(GainXP(s))
  {
    SelectedXpNonNegative(s);
    UpdateKeepsInv(s, Xp(s.selected.value.xp + 10));
  }

  /** "+ Add Resource" keeps the invariant. */
  lemma AddResourceKeepsInv(s: AppState, answer: Option<string>)
    requires Inv(s) && s.selected.Some?
    ensures Inv(AddResource(s, answer))
  {
    if answer.Some? && answer.value != "" {
      UpdateKeepsInv(s, Resources(s.selected.value.resources + [answer.value]));
    }
  }

  /** "Delete" next to a resource keeps the invariant. */
  lemma DeleteResourceKeepsInv(s: AppState, url: string)
    requires Inv(s) && s.selected.Some?
    ensures Inv(DeleteResource(s, url))
  {
    UpdateKeepsInv(s, Resources(RemoveUrl(s.selected.value.resources, url)));
  }

  /** Every event keeps the invariant. */
  lemma StepKeepsInv(s: AppState, e: Event)
    requires Inv(s) && Enabled(s, e)
    ensures Inv(Step(s, e))
  {
    if e.ClickAdd? {
      AddTaskKeepsInv(s, e.clock);
    } else if e.ClickDelete? {
      DeleteTaskKeepsInv(s, s.selected.value.id);
    } else if e.TypeName? || e.ClickPickRandom? || e.ClickCard? || e.ClickBack? {
      NavigationKeepsInv(s, e);
    } else if e.ClickGainXP? {
      GainXPKeepsInv(s);
    } else if e.ClickAddResource? {
      AddResourceKeepsInv(s, e.answer);
    } else if e.ClickDeleteResource? {
      DeleteResourceKeepsInv(s, e.url);
    } else {
      UpdateKeepsInv(s, LastWork(e.note));
    }
  }

  /** A fresh page, with nothing stored, starts with the invariant. */
  lemma FreshPageInv()
    ensures Inv(Initial(None))
  {
  }

  /** The invariant holds after any run of events from a state that has it,
      in particular from the initial state of a fresh page. */
  lemma {:induction false} RunKeepsInv(s: AppState, es: seq<Event>)
    requires Inv(s) && Runnable(s, es)
    ensures Inv(Run(s, es))
    decreases |es|
  {
    if es != [] {
      StepKeepsInv(s, es[0]);
      RunKeepsInv(Step(s, es[0]), es[1..]);
    }
  }

  /** While the invariant holds, the displayed progress `xp % 100` lies in
      0..99. */
  lemma DisplayedProgressInRange(s: AppState)
    requires Inv(s) && s.selected.Some?
    ensures 0 <= Progress(s.selected.value.xp) < 100
  {
    SelectedXpNonNegative(s);
  }

  /** Every `ClickAdd` of the run reads a clock value that no task carries
      at that moment. */
  predicate FreshClocks(s: AppState, es: seq<Event>)
    requires Runnable(s, es)
    decreases |es|
  {
    es == [] ||
    ((es[0].ClickAdd? ==> es[0].clock !in Ids(s.tasks)) && FreshClocks(Step(s, es[0]), es[1..]))
  }

  /** One event keeps the ids unique when an add reads a fresh clock. */
  lemma StepKeepsIdsUnique(s: AppState, e: Event)
    requires Enabled(s, e) && IdsUnique(s.tasks)
    requires e.ClickAdd? ==> e.clock !in Ids(s.tasks)
    ensures IdsUnique(Step(s, e).tasks)
  {
    match e
    case ClickAdd(clock) => AddTaskKeepsIdsUnique(s, clock);
    case ClickDelete => RemoveIdKeepsUnique(s.tasks, s.selected.value.id);
    case EditNote(note) => UpdateKeepsIdsUnique(s, LastWork(note));
    case ClickGainXP => UpdateKeepsIdsUnique(s, Xp(s.selected.value.xp + 10));
    case ClickAddResource(answer) =>
      if answer.Some? && answer.value != "" {
        UpdateKeepsIdsUnique(s, Resources(s.selected.value.resources + [answer.value]));
      }
    case ClickDeleteResource(url) =>
      UpdateKeepsIdsUnique(s, Resources(RemoveUrl(s.selected.value.resources, url)));
    case TypeName(_) =>
    case ClickPickRandom(_) =>
    case ClickCard(_) =>
    case ClickBack =>
  }

  /** Field updates through the selection leave the ids unique. */
  lemma UpdateKeepsIdsUnique(s: AppState, f: Field)
    requires s.selected.Some? && IdsUnique(s.tasks)
    ensures IdsUnique(UpdateSelectedTask(s, f).tasks)
  {
    var r := UpdateSelectedTask(s, f);
    forall i, j | 0 <= i < j < |r.tasks| ensures r.tasks[i].id != r.tasks[j].id {
      assert r.tasks[i].id == s.tasks[i].id && r.tasks[j].id == s.tasks[j].id;
    }
  }

  /** When every add reads a fresh clock, ids stay unique over a whole run. */
  lemma {:induction false} RunKeepsIdsUnique(s: AppState, es: seq<Event>)
    requires Runnable(s, es) && FreshClocks(s, es) && IdsUnique(s.tasks)
    ensures IdsUnique(Run(s, es).tasks)
    decreases |es|
  {
    if es != [] {
      StepKeepsIdsUnique(s, es[0]);
      RunKeepsIdsUnique(Step(s, es[0]), es[1..]);
    }
  }

  /** The number of names that are not blank. */
  function NonBlank(names: seq<string>): nat
  {
    if names == [] then 0
    else (if AllSpace(names[0]) then 0 else 1) + NonBlank(names[1..])
  }

  /** Typing each name into the input and pressing "+ Add Task", reading
      the clock values `clocks`. */
  function TypeAndAdd(names: seq<string>, clocks: seq<int>): (es: seq<Event>)
    requires |names| == |clocks|
    ensures |es| == 2 * |names|
  {
    if names == [] then [] else [TypeName(names[0]), ClickAdd(clocks[0])] + TypeAndAdd(names[1..], clocks[1..])
  }

  /** Typing `name` and pressing "Add" in the list view is `addTask` on
      that input. */
  lemma TypeAndAddOne(s: AppState, name: string, clock: int)
    requires s.selected.None?
    ensures Runnable(s, [TypeName(name), ClickAdd(clock)])
    ensures Run(s, [TypeName(name), ClickAdd(clock)]) == AddTask(s.(newTaskName := name), clock)
  {
    var add := [ClickAdd(clock)];
    assert add == add + [];
    RunCons(s.(newTaskName := name), ClickAdd(clock), []);
    RunCons(s, TypeName(name), add);
    assert [TypeName(name), ClickAdd(clock)] == [TypeName(name)] + add;
  }

  /** In the list view, typing and adding the names `names` adds one task
      per non-blank name and leaves the list view shown. */
  lemma {:induction false} TypeAndAddCount(s: AppState, names: seq<string>, clocks: seq<int>)
    requires s.selected.None? && |names| == |clocks|
    ensures Runnable(s, TypeAndAdd(names, clocks))
    ensures |Run(s, TypeAndAdd(names, clocks)).tasks| == |s.tasks| + NonBlank(names)
    ensures Run(s, TypeAndAdd(names, clocks)).selected.None?
    decreases |names|
  {
    if names != [] {
      var pair := [TypeName(names[0]), ClickAdd(clocks[0])];
      var rest := TypeAndAdd(names[1..], clocks[1..]);
      var s2 := AddTask(s.(newTaskName := names[0]), clocks[0]);
      TypeAndAddOne(s, names[0], clocks[0]);
      TypeAndAddCount(s2, names[1..], clocks[1..]);
      RunAppend(s, pair, rest);
    }
  }

  /** `gainXP` pressed `n` times. */
  function GainXPTimes(s: AppState, n: nat): (r: AppState)
    requires s.selected.Some?
    ensures r.selected.Some?
    decreases n
  {
    if n == 0 then s else GainXP(GainXPTimes(s, n - 1))
  }

  /** Setting the same field of the selected task twice is setting it once
      to the second value. */
  lemma UpdateSelectedTwice(s: AppState, f: Field, g: Field)
    requires s.selected.Some? && SameField(f, g)
    ensures UpdateSelectedTask(UpdateSelectedTask(s, f), g) == UpdateSelectedTask(s, g)
  {
    var sel := s.selected.value;
    MapWhereTwice(s.tasks, sel.id, f, g);
    assert With(With(sel, f), g) == With(sel, g);
  }

  /** Pressing "+ Gain XP" `n > 0` times is one update of the selected
      task's XP to its value plus `10 * n`: each press reads the XP the
      previous one wrote. */
  lemma {:induction false} GainXPTimesUpdate(s: AppState, n: nat)
    requires s.selected.Some? && n > 0
    ensures GainXPTimes(s, n) == UpdateSelectedTask(s, Xp(s.selected.value.xp + 10 * n))
    decreases n
  {
    var x := s.selected.value.xp;
    if n > 1 {
      GainXPTimesUpdate(s, n - 1);
      UpdateSelectedTwice(s, Xp(x + 10 * (n - 1)), Xp(x + 10 * n));
    }
  }

  /** Pressing "+ Gain XP" `n` times adds exactly `10 * n` to the selected
      task and changes none of its other fields. */
  lemma GainXPTimesSelected(s: AppState, n: nat)
    requires s.selected.Some?
    ensures GainXPTimes(s, n).selected.value == s.selected.value.(xp := s.selected.value.xp + 10 * n)
  {
    if n > 0 {
      GainXPTimesUpdate(s, n);
    }
  }

  /** Pressing "+ Gain XP" `n` times keeps the list's length, leaves every
      task without the selected id alone, and once it has been pressed
      every task with the selected id holds the selection's XP, the rest of
      that task unchanged. */
  lemma GainXPTimesTasks(s: AppState, n: nat)
    requires s.selected.Some?
    ensures |GainXPTimes(s, n).tasks| == |s.tasks|
    ensures forall i :: 0 <= i < |s.tasks| && s.tasks[i].id != s.selected.value.id ==>
      GainXPTimes(s, n).tasks[i] == s.tasks[i]
    ensures n > 0 ==> forall i :: 0 <= i < |s.tasks| && s.tasks[i].id == s.selected.value.id ==>
      GainXPTimes(s, n).tasks[i] == s.tasks[i].(xp := s.selected.value.xp + 10 * n)
  {
    if n > 0 {
      GainXPTimesUpdate(s, n);
    }
  }

  /** Handling one more event at the front of a run. */
  lemma RunCons(s: AppState, e: Event, rest: seq<Event>)
    requires Enabled(s, e) && Runnable(Step(s, e), rest)
    ensures Runnable(s, [e] + rest) && Run(s, [e] + rest) == Run(Step(s, e), rest)
  {
    assert ([e] + rest)[1..] == rest;
  }

  /** Updating the selection of a one-task list whose task is selected. */
  lemma WalkthroughUpdate(s: AppState, t: Task, f: Field, t': Task)
    requires s == AppState([t], Some(t), "") && With(t, f) == t'
    ensures UpdateSelectedTask(s, f) == AppState([t'], Some(t'), "")
  {
    var r := UpdateSelectedTask(s, f);
    assert r.tasks[0] == t';
  }

  /** Running two event lists one after the other is running their
      concatenation. */
  lemma {:induction false} RunAppend(s: AppState, a: seq<Event>, b: seq<Event>)
    requires Runnable(s, a) && Runnable(Run(s, a), b)
    ensures Runnable(s, a + b) && Run(s, a + b) == Run(Run(s, a), b)
    decreases |a|
  {
    if a == [] {
      assert a + b == b;
    } else {
      var e, t := a[0], Step(s, a[0]);
      assert a == [e] + a[1..] && a + b == [e] + (a[1..] + b);
      RunAppend(t, a[1..], b);
      RunCons(s, e, a[1..] + b);
    }
  }

  /** The walkthrough's events in the list view: type the non-blank `name`,
      add it, open its card. */
  function ListEvents(clock: int, name: string): seq<Event>
  {
    [TypeName(name), ClickAdd(clock), ClickCard(0)]
  }

  /** The walkthrough's events in the detail view: gain XP, add a resource,
      delete it, delete the task. */
  function DetailEvents(): seq<Event>
  {
    [ClickGainXP, ClickAddResource(Some("http://x")), ClickDeleteResource("http://x"), ClickDelete]
  }

  /** A user's session: create a task called `name`, open it, gain XP, add a
      resource, delete that resource, delete the task. */
  function WalkthroughEvents(clock: int, name: string): seq<Event>
  {
    ListEvents(clock, name) + DetailEvents()
  }

  /** The list-view part of the session adds the task and opens it. */
  lemma WalkthroughList(clock: int, name: string)
    requires !AllSpace(name)
    ensures Runnable(Initial(None), ListEvents(clock, name))
    ensures Run(Initial(None), ListEvents(clock, name))
      == AppState([NewTask(clock, name)], Some(NewTask(clock, name)), "")
  {
    var t := NewTask(clock, name);
    var s1 := AppState([], None, name);
    var s2 := AppState([t], None, "");
    assert Step(Initial(None), TypeName(name)) == s1;
    assert Step(s1, ClickAdd(clock)) == s2;
    var e2 := [ClickCard(0)];
    var e1 := [ClickAdd(clock)] + e2;
    assert ListEvents(clock, name) == [TypeName(name)] + e1;
    assert e2 == e2 + [];
    RunCons(s2, ClickCard(0), []);
    RunCons(s1, ClickAdd(clock), e2);
    RunCons(Initial(None), TypeName(name), e1);
  }

  /** The walkthrough's state in the detail view once XP has been gained,
      holding the resources `urls`. */
  function Worked(clock: int, name: string, urls: seq<string>): AppState
  {
    var t := NewTask(clock, name).(xp := 10, resources := urls);
    AppState([t], Some(t), "")
  }

  /** The detail-view steps one by one. */
  lemma DetailSteps(clock: int, name: string)
    ensures Step(AppState([NewTask(clock, name)], Some(NewTask(clock, name)), ""), ClickGainXP) == Worked(clock, name, [])
    ensures Step(Worked(clock, name, []), ClickAddResource(Some("http://x"))) == Worked(clock, name, ["http://x"])
    ensures Step(Worked(clock, name, ["http://x"]), ClickDeleteResource("http://x")) == Worked(clock, name, [])
    ensures Step(Worked(clock, name, []), ClickDelete) == AppState([], None, "")
  {
    var url := "http://x";
    var t0 := NewTask(clock, name);
    var t1 := t0.(xp := 10);
    var t2 := t1.(resources := [url]);
    assert Step(AppState([t0], Some(t0), ""), ClickGainXP) == Worked(clock, name, []) by {
      WalkthroughUpdate(AppState([t0], Some(t0), ""), t0, Xp(10), t1);
    }
    assert Step(Worked(clock, name, []), ClickAddResource(Some(url))) == Worked(clock, name, [url]) by {
      assert |url| == 8 && [] + [url] == [url];
      WalkthroughUpdate(Worked(clock, name, []), t1, Resources([url]), t2);
    }
    assert Step(Worked(clock, name, [url]), ClickDeleteResource(url)) == Worked(clock, name, []) by {
      assert RemoveUrl([url], url) == [];
      WalkthroughUpdate(Worked(clock, name, [url]), t2, Resources([]), t1);
    }
    assert Step(Worked(clock, name, []), ClickDelete) == AppState([], None, "") by {
      RemoveIdLength([t1], clock);
    }
  }

  /** The detail-view part of the session: XP 10, the resource comes and
      goes, and deleting the task empties the list and closes the view. */
  lemma WalkthroughDetail(clock: int, name: string)
    ensures Runnable(AppState([NewTask(clock, name)], Some(NewTask(clock, name)), ""), DetailEvents())
    ensures Run(AppState([NewTask(clock, name)], Some(NewTask(clock, name)), ""), DetailEvents()) == AppState([], None, "")
  {
    var url := "http://x";
    DetailSteps(clock, name);
    var e3 := [ClickDelete];
    var e2 := [ClickDeleteResource(url)] + e3;
    var e1 := [ClickAddResource(Some(url))] + e2;
    assert DetailEvents() == [ClickGainXP] + e1;
    RunCons(Worked(clock, name, []), ClickDelete, []);
    assert e3 == [ClickDelete] + [];
    RunCons(Worked(clock, name, [url]), ClickDeleteResource(url), e3);
    RunCons(Worked(clock, name, []), ClickAddResource(Some(url)), e2);
    RunCons(AppState([NewTask(clock, name)], Some(NewTask(clock, name)), ""), ClickGainXP, e1);
  }

  /** The whole session runs from a fresh page and ends with an empty list
      and no selection. */
  lemma Walkthrough(clock: int, name: string)
    requires !AllSpace(name)
    ensures Runnable(Initial(None), WalkthroughEvents(clock, name))
    ensures Run(Initial(None), WalkthroughEvents(clock, name)) == AppState([], None, "")
  {
    WalkthroughList(clock, name);
    WalkthroughDetail(clock, name);
    RunAppend(Initial(None), ListEvents(clock, name), DetailEvents());
  }
}
