/** The task record and the list transforms the component's handlers apply
    to it: append, filter by id, map-with-record-update by id, filter a
    resource list by value, and the remainder the progress bar displays. */
module Tasks {
  import opened Lists

  /** One trackable unit of work, as stored in the `tasks` array. */
  datatype Task = Task(id: int, name: string, lastWork: string, resources: seq<string>, xp: int)

  /** The three fields the handlers overwrite through `updateSelectedTask`,
      each with its new value. */
  datatype Field = LastWork(note: string) | Resources(urls: seq<string>) | Xp(points: int)

  /** The record a non-blank `addTask` creates (all fields but the name at
      their initial values). */
  function NewTask(id: int, name: string): Task
  {
    Task(id, name, "", [], 0)
  }

  /** `{ ...task, [field]: value }`: a copy of `t` with one field replaced. */
  function With(t: Task, f: Field): (r: Task)
    ensures r.id == t.id && r.name == t.name
    ensures r.lastWork == (if f.LastWork? then f.note else t.lastWork)
    ensures r.resources == (if f.Resources? then f.urls else t.resources)
    ensures r.xp == (if f.Xp? then f.points else t.xp)
  {
    match f
    case LastWork(note) => t.(lastWork := note)
    case Resources(urls) => t.(resources := urls)
    case Xp(points) => t.(xp := points)
  }

  /** The ids of `tasks`, in order. */
  function Ids(tasks: seq<Task>): (r: seq<int>)
    ensures |r| == |tasks|
    ensures forall i :: 0 <= i < |tasks| ==> r[i] == tasks[i].id
  {
    if tasks == [] then [] else [tasks[0].id] + Ids(tasks[1..])
  }

  /** No two tasks share an id. */
  predicate IdsUnique(tasks: seq<Task>)
  {
    forall i, j :: 0 <= i < j < |tasks| ==> tasks[i].id != tasks[j].id
  }

  /** How many tasks carry `id`. */
  function Matches(tasks: seq<Task>, id: int): nat
  {
    if tasks == [] then 0
    else (if tasks[0].id == id then 1 else 0) + Matches(tasks[1..], id)
  }

  /** `tasks.map(task => task.id === id ? { ...task, [field]: value } : task)`. */
  function MapWhere(tasks: seq<Task>, id: int, f: Field): (r: seq<Task>)
    ensures |r| == |tasks|
    ensures forall i :: 0 <= i < |tasks| ==> r[i] == if tasks[i].id == id then With(tasks[i], f) else tasks[i]
  {
    if tasks == [] then []
    else [if tasks[0].id == id then With(tasks[0], f) else tasks[0]] + MapWhere(tasks[1..], id, f)
  }

  /** Updating by id never changes the ids, their order or the length. */
  lemma MapWhereKeepsIds(tasks: seq<Task>, id: int, f: Field)
    ensures Ids(MapWhere(tasks, id, f)) == Ids(tasks)
  {
    assert forall i :: 0 <= i < |tasks| ==> Ids(MapWhere(tasks, id, f))[i] == Ids(tasks)[i];
  }

  /** Two fields name the same property of a task. */
  predicate SameField(f: Field, g: Field)
  {
    f.LastWork? == g.LastWork? && f.Xp? == g.Xp?
  }

  /** Setting the same field twice by id keeps only the second value. */
  lemma MapWhereTwice(tasks: seq<Task>, id: int, f: Field, g: Field)
    requires SameField(f, g)
    ensures MapWhere(MapWhere(tasks, id, f), id, g) == MapWhere(tasks, id, g)
  {
    forall i | 0 <= i < |tasks| ensures MapWhere(MapWhere(tasks, id, f), id, g)[i] == MapWhere(tasks, id, g)[i] {
      if tasks[i].id == id {
        assert With(With(tasks[i], f), g) == With(tasks[i], g);
      }
    }
  }

  /** Updating an id that no task carries changes nothing. */
  lemma MapWhereAbsent(tasks: seq<Task>, id: int, f: Field)
    requires id !in Ids(tasks)
    ensures MapWhere(tasks, id, f) == tasks
  {
    forall i | 0 <= i < |tasks| ensures MapWhere(tasks, id, f)[i] == tasks[i] {
      assert Ids(tasks)[i] == tasks[i].id;
    }
  }

  /** The predicate `task => task.id !== id`. */
  function OtherId(id: int): Task -> bool
  {
    (t: Task) => t.id != id
  }

  /** `tasks.filter(task => task.id !== id)`: every task without that id, in
      the original order, and no task with it. */
  function RemoveId(tasks: seq<Task>, id: int): (r: seq<Task>)
    ensures forall i :: 0 <= i < |r| ==> r[i] in tasks && r[i].id != id
    ensures forall i :: 0 <= i < |tasks| && tasks[i].id != id ==> tasks[i] in r
    ensures IsSubsequence(r, tasks)
  {
    FilterIsSubsequence(tasks, OtherId(id));
    Filter(tasks, OtherId(id))
  }

  /** Removing by id shortens the list by the number of tasks carrying it. */
  lemma {:induction false} RemoveIdLength(tasks: seq<Task>, id: int)
    ensures |RemoveId(tasks, id)| == |tasks| - Matches(tasks, id)
  {
    if tasks != [] {
      RemoveIdLength(tasks[1..], id);
    }
  }

  /** With unique ids, an id is carried by one task if present and by none
      otherwise. */
  lemma {:induction false} MatchesUnique(tasks: seq<Task>, id: int)
    requires IdsUnique(tasks)
    ensures Matches(tasks, id) == if id in Ids(tasks) then 1 else 0
  {
    if tasks != [] {
      assert IdsUnique(tasks[1..]) by {
        forall i, j | 0 <= i < j < |tasks| - 1 ensures tasks[1..][i].id != tasks[1..][j].id {
          assert tasks[1..][i] == tasks[i + 1] && tasks[1..][j] == tasks[j + 1];
        }
      }
      MatchesUnique(tasks[1..], id);
      assert Ids(tasks) == [tasks[0].id] + Ids(tasks[1..]);
    }
  }

  /** Removing tasks keeps the remaining ids unique. */
  lemma {:induction false} RemoveIdKeepsUnique(tasks: seq<Task>, id: int)
    requires IdsUnique(tasks)
    ensures IdsUnique(RemoveId(tasks, id))
  {
    if tasks != [] {
      var rest := tasks[1..];
      assert IdsUnique(rest) by {
        forall i, j | 0 <= i < j < |rest| ensures rest[i].id != rest[j].id {
          assert rest[i] == tasks[i + 1] && rest[j] == tasks[j + 1];
        }
      }
      RemoveIdKeepsUnique(rest, id);
      var tail := RemoveId(rest, id);
      assert RemoveId(tasks, id) == if tasks[0].id != id then [tasks[0]] + tail else tail;
      if tasks[0].id != id {
        var r := [tasks[0]] + tail;
        forall i, j | 0 <= i < j < |r| ensures r[i].id != r[j].id {
          if i == 0 {
            assert r[j] == tail[j - 1];
            assert tail[j - 1] in rest;
            var m :| 0 <= m < |rest| && rest[m] == tail[j - 1];
            assert tasks[m + 1] == rest[m];
          } else {
            assert r[i] == tail[i - 1] && r[j] == tail[j - 1];
          }
        }
      }
    }
  }

  /** The predicate `r => r !== url`. */
  function OtherUrl(url: string): string -> bool
  {
    (r: string) => r != url
  }

  /** `resources.filter(r => r !== url)`: every copy of `url` is removed,
      and every other entry is kept, as often as it occurred and in order. */
  function RemoveUrl(urls: seq<string>, url: string): (r: seq<string>)
    ensures url !in r
    ensures forall x :: x != url ==> multiset(r)[x] == multiset(urls)[x]
    ensures IsSubsequence(r, urls)
  {
    FilterIsSubsequence(urls, OtherUrl(url));
    var r := Filter(urls, OtherUrl(url));
    assert forall x :: x != url ==> multiset(r)[x] == multiset(urls)[x] by {
      forall x | x != url ensures multiset(r)[x] == multiset(urls)[x] {
        FilterMultiset(urls, OtherUrl(url), x);
      }
    }
    r
  }

  /** The resource list shrinks by exactly the number of copies of `url`. */
  lemma {:induction false} RemoveUrlLength(urls: seq<string>, url: string)
    ensures |RemoveUrl(urls, url)| == |urls| - multiset(urls)[url]
  {
    if urls != [] {
      RemoveUrlLength(urls[1..], url);
      assert urls == [urls[0]] + urls[1..];
    }
  }

  /** `xp % 100`, the width of the progress bar in percent. JavaScript's `%`
      truncates toward zero, so the remainder takes the sign of `xp`. */
  function Progress(xp: int): (r: int)
    ensures xp >= 0 ==> 0 <= r < 100
    ensures xp < 0 ==> -100 < r <= 0
    ensures (xp - r) % 100 == 0
  {
    if xp >= 0 then xp % 100 else -((-xp) % 100)
  }
}
