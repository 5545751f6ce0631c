/** The `App` component as an object: its three `useState` slots become
    fields, every event handler a method that overwrites them, and the
    effect that mirrors `tasks` into local storage a fourth field written
    after every change to `tasks`. Each method performs the transition of
    the same name in module Handlers. */
module AppComponent {
  import opened Wrappers
  import opened JsText
  import opened Tasks
  import Handlers

  class App {
    var tasks: seq<Task>
    var selected: Option<Task>
    var newTaskName: string
    /** The `'tasks'` slot of local storage, already serialized. */
    var stored: seq<Task>

    /** The component state the fields hold. */
    function State(): Handlers.AppState
      reads this
    {
      Handlers.AppState(tasks, selected, newTaskName)
    }

    /** The stored copy is the list, and the selection is one of its tasks. */
    ghost predicate Valid()
      reads this
    {
      stored == tasks && Handlers.SelectionInTasks(State())
    }

    /** Mounting: the parsed stored list if there is one, otherwise an empty
        list; then the effect's first run writes it back. */
    constructor (saved: Option<seq<Task>>)
      ensures Valid() && State() == Handlers.Initial(saved)
    {
      tasks := if saved.Some? then saved.value else [];
      selected := None;
      newTaskName := "";
      stored := tasks;
    }

    /** The text input's `onChange`. */
    method SetNewTaskName(text: string)
      requires Valid()
      modifies this
      ensures Valid() && State() == old(State()).(newTaskName := text)
      ensures stored == old(stored)
    {
      newTaskName := text;
    }

    /** `addTask`, with `id` the clock reading. */
    method AddTask(id: int)
      requires Valid()
      modifies this
      ensures Valid() && State() == Handlers.AddTask(old(State()), id)
    {
      if Trim(newTaskName) == [] {
        return;
      }
      var newTask := NewTask(id, newTaskName);
      tasks := tasks + [newTask];
      newTaskName := "";
      stored := tasks;
    }

    /** `deleteTask(id)`. */
    method DeleteTask(id: int)
      requires Valid()
      modifies this
      ensures Valid() && State() == Handlers.DeleteTask(old(State()), id)
    {
      tasks := RemoveId(tasks, id);
      selected := None;
      stored := tasks;
    }

    /** `updateSelectedTask(field, value)`. */
    method UpdateSelectedTask(f: Field)
      requires Valid() && selected.Some?
      modifies this
      ensures Valid() && State() == Handlers.UpdateSelectedTask(old(State()), f)
    {
      tasks := MapWhere(tasks, selected.value.id, f);
      selected := Some(With(selected.value, f));
      stored := tasks;
    }

    /** `addResource`, with `answer` the prompt's result. */
    method AddResource(answer: Option<string>)
      requires Valid() && selected.Some?
      modifies this
      ensures Valid() && State() == Handlers.AddResource(old(State()), answer)
    {
      if answer.Some? && answer.value != "" {
        var updated := selected.value.resources + [answer.value];
        UpdateSelectedTask(Resources(updated));
      }
    }

    /** `deleteResource(url)`. */
    method DeleteResource(url: string)
      requires Valid() && selected.Some?
      modifies this
      ensures Valid() && State() == Handlers.DeleteResource(old(State()), url)
    {
      var updated := RemoveUrl(selected.value.resources, url);
      UpdateSelectedTask(Resources(updated));
    }

    /** `gainXP`. */
    method GainXP()
      requires Valid() && selected.Some?
      modifies this
      ensures Valid() && State() == Handlers.GainXP(old(State()))
    {
      var newXP := selected.value.xp + 10;
      ghost var before := State();
      assert Xp(newXP) == Xp(before.selected.value.xp + 10);
      UpdateSelectedTask(Xp(newXP));
    }

    /** `pickRandomTask`, with `roll` the random index. */
    method PickRandomTask(roll: nat)
      requires Valid() && (tasks != [] ==> roll < |tasks|)
      modifies this
      ensures Valid() && State() == Handlers.PickRandomTask(old(State()), roll)
    {
      if |tasks| == 0 {
        return;
      }
      selected := Some(tasks[roll]);
    }

    /** A card's `onClick`: select the task at `index`. */
    method SelectTask(index: nat)
      requires Valid() && index < |tasks|
      modifies this
      ensures Valid() && State() == old(State()).(selected := Some(old(tasks)[index]))
    {
      selected := Some(tasks[index]);
    }

    /** The "Back" button: clear the selection. */
    method Back()
      requires Valid()
      modifies this
      ensures Valid() && State() == old(State()).(selected := None)
    {
      selected := None;
    }
  }
}
