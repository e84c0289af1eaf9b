/** The backend canister's state and its four entry points. The ambient
    `caller()` of the platform is an explicit `Principal` parameter. */
module Backend {
  import opened TaskTypes
  import opened StoreSpec

  class TaskStore {
    /** `NEXT_ID`: the last id handed out. */
    var nextId: nat
    /** `TASKS`: tasks by id. */
    var tasks: map<nat, Task>

    /** The store invariant on the current fields. */
    ghost predicate Valid()
      reads this
    {
      Inv(State(nextId, tasks))
    }

    /** The current fields as a `State` value. */
    ghost function Abs(): State
      reads this
    {
      State(nextId, tasks)
    }

    /** A fresh canister: counter at 0, no tasks. */
    constructor ()
      ensures Valid()
      ensures nextId == 0 && tasks == map[]
    {
      nextId := 0;
      tasks := map[];
    }

    /** `add_task`: the returned id is the incremented counter; it was not a key
        before, so the new entry overwrites nothing. */
    method AddTask(title: string, caller: Principal) returns (id: nat)
      requires Valid()
      modifies this
      ensures Valid()
      ensures (id, Abs()) == Add(old(Abs()), title, caller)
      ensures id == nextId == old(nextId) + 1
      ensures id !in old(tasks)
      ensures tasks == old(tasks)[id := Task(id, title, false, caller)]
    {
      nextId := nextId + 1;
      id := nextId;
      var task := Task(id, title, false, caller);
      tasks := tasks[id := task];
    }

    /** `get_tasks`: every stored task once, in ascending id order (the key
        order of the B-tree iteration), the store left untouched. */
    method GetTasks() returns (r: seq<Task>)
      requires Valid()
      ensures IsListing(tasks, r)
    {
      r := [];
      var rest := tasks.Keys;
      while rest != {}
        invariant rest <= tasks.Keys
        invariant |r| + |rest| == |tasks.Keys|
        invariant forall i :: 0 <= i < |r| ==> r[i].id in tasks && tasks[r[i].id] == r[i] && r[i].id !in rest
        invariant forall i, j :: 0 <= i < j < |r| ==> r[i].id < r[j].id
        invariant forall i, k :: 0 <= i < |r| && k in rest ==> r[i].id < k
        invariant forall k :: k in tasks && k !in rest ==> tasks[k] in r
        decreases rest
      {
        ghost var least := HasMinimum(rest);
        var k :| k in rest && forall j :: j in rest ==> k <= j;
        r := r + [tasks[k]];
        rest := rest - {k};
      }
    }

    /** `delete_task`: removes the entry when present, else reports it
        missing; the counter is unchanged, so a deleted id is never reissued. */
    method DeleteTask(id: nat) returns (res: Result)
      requires Valid()
      modifies this
      ensures Valid()
      ensures (res, Abs()) == Delete(old(Abs()), id)
      ensures nextId == old(nextId)
      ensures id in old(tasks) ==> res == Ok && tasks == old(tasks) - {id}
      ensures id !in old(tasks) ==> res == Err(TaskNotFound) && tasks == old(tasks)
    {
      if id in tasks {
        tasks := tasks - {id};
        res := Ok;
      } else {
        res := Err(TaskNotFound);
      }
    }

    /** `update_task`: existence is checked first, then ownership; on success
        the task is read out, patched field by field and written back. */
    method UpdateTask(caller: Principal, id: nat, newTitle: Option<string>, completed: Option<bool>) returns (res: Result)
      requires Valid()
      modifies this
      ensures Valid()
      ensures (res, Abs()) == Update(old(Abs()), caller, id, newTitle, completed)
      ensures nextId == old(nextId)
      ensures id !in old(tasks) ==> res == Err(TaskNotFound) && tasks == old(tasks)
      ensures id in old(tasks) && old(tasks)[id].owner != caller ==> res == Err(NotOwner) && tasks == old(tasks)
      ensures id in old(tasks) && old(tasks)[id].owner == caller ==>
        res == Ok && tasks == old(tasks)[id := Patch(old(tasks)[id], newTitle, completed)]
    {
      if id in tasks {
        var task := tasks[id];
        if task.owner != caller {
          return Err(NotOwner);
        }
        if newTitle.Some? {
          task := task.(title := newTitle.value);
        }
        if completed.Some? {
          task := task.(completed := completed.value);
        }
        tasks := tasks[id := task];
        res := Ok;
      } else {
        res := Err(TaskNotFound);
      }
    }
  }

  /** Two additions, a deletion and a listing on a fresh store: the ids are 1
      and 2, and after deleting 1 only the second task is listed. */
  method AddAddDeleteList(caller: Principal) returns (first: nat, second: nat, listed: seq<Task>)
    ensures first == 1 && second == 2
    ensures listed == [Task(2, "B", false, caller)]
  {
    var store := new TaskStore();
    first := store.AddTask("A", caller);
    second := store.AddTask("B", caller);
    var res := store.DeleteTask(first);
    assert store.tasks == map[2 := Task(2, "B", false, caller)];
    listed := store.GetTasks();
    var expected := [Task(2, "B", false, caller)];
    assert IsListing(store.tasks, expected);
    ListingUnique(store.tasks, listed, expected);
  }
}
