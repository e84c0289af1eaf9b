# Task store of the to-do list canister

This project models the backend canister of a to-do list decentralized application, and proves properties of the model. The canister holds two pieces of state:

- a counter `NEXT_ID`, which starts at 0;
- an ordered map `TASKS` from id to task.

A task has an id, a title, a completion flag and the principal that owns it. The canister has four entry points:

- `add_task` increments the counter and stores a new incomplete task owned by the caller under the new value. It returns that value.
- `get_tasks` lists every stored task in ascending id order.
- `delete_task` removes a task, or answers `Task not found`.
- `update_task` checks in order that the task exists (`Task not found`) and that the caller owns it (`You are not the owner of this task`). It then replaces the title and the completion flag, each only if a new value is given.

`delete_task` does not consult the caller: any principal may delete any task. The model keeps this behaviour as the code has it.

Files:

- `task_types.dfy` (module `TaskTypes`) holds the values: `Option`, `Principal` (a byte blob compared by equality), `Task`, the `Ok | Err(msg)` result, the two error messages, and `Patch`, the replace-or-keep field update.
- `store_spec.dfy` (module `StoreSpec`) holds the store as a `State` value and its invariant `Inv`. Every key is its task's id and lies in `1 ..= nextId`. The module has one transition function per mutating entry point, the predicate `IsListing` ("each stored task once, ascending by id"), and lemmas. Some lemmas are about single calls (idempotence, no-op update). Others are about whole runs of calls (`Run`: ids are consecutive, strictly increasing and never reused). One shows that the listing is unique.
- `task_store.dfy` (module `Backend`) holds the class `TaskStore`, whose fields `nextId` and `tasks` are the canister's state. The class has one `modifies this` method per mutating entry point that updates the fields step by step as the source does. Each method's postcondition ties the new state to the matching `StoreSpec` function and states the result outright. `GetTasks` loops over the remaining keys, taking the least one each time, the way the B-tree iteration visits keys in order.

The platform's `caller()` is a `Principal` parameter of the methods that use it.

## Model

| member | source | states |
|---|---|---|
| `TaskTypes.Patch` | src/temp_backend/src/lib.rs:97-104 | the title becomes the new title if one is given and stays the same otherwise; the completion flag works the same way; id and owner are never changed |
| `TaskTypes.PatchIdempotent` | src/temp_backend/src/lib.rs:97-104 | applying the same field updates twice gives the same task as applying them once |
| `TaskTypes.PatchNoneIsIdentity` | src/temp_backend/src/lib.rs:97-104 | with neither field given, the task is unchanged |
| `TaskTypes.PatchFieldsIndependent` | src/temp_backend/src/lib.rs:97-104 | updating both fields at once equals updating title then flag, and flag then title |
| `StoreSpec.Add` | src/temp_backend/src/lib.rs:43-60 | the returned id is the old counter plus one and becomes the new counter; the new entry is `Task(id, title, false, caller)`; given the invariant, the id was not a key before, no other entry changes, and the invariant still holds |
| `StoreSpec.Delete` | src/temp_backend/src/lib.rs:71-81 | `Ok` exactly when the id was present; otherwise `Err("Task not found")` and the state is unchanged; the keys afterwards are the old keys minus the id, other entries are unchanged, the counter is unchanged, and the invariant is kept |
| `StoreSpec.Update` | src/temp_backend/src/lib.rs:85-113 | a missing id gives `Err("Task not found")` with no change; a non-owner gives `Err("You are not the owner of this task")` with no change; `Ok` exactly when the id is present and the caller owns it, and then the entry is the patched task, the keys are the same, other entries and the counter are unchanged, and the invariant is kept |
| `StoreSpec.FirstIdIsOne` | src/temp_backend/src/lib.rs:38-48 | on a fresh store the first id handed out is 1 |
| `StoreSpec.UpdateIdempotent` | src/temp_backend/src/lib.rs:97-108 | repeating a successful update succeeds and leaves the store the same as after the first one |
| `StoreSpec.UpdateNothingIsNoOp` | src/temp_backend/src/lib.rs:90-108 | the owner's update with neither field given returns `Ok` and changes nothing |
| `StoreSpec.HasMinimum` | src/temp_backend/src/lib.rs:66 | any non-empty set of keys has a least key, so in-order iteration always has a next key |
| `StoreSpec.ListingUnique` | src/temp_backend/src/lib.rs:63-67 | when keys equal ids, two sequences that both list the store (every task once, ascending by id) are equal, so the result of `get_tasks` is determined by the store |
| `StoreSpec.ListingHeadIsLeast` | src/temp_backend/src/lib.rs:66 | the first task of a listing has the least key of the store |
| `StoreSpec.ListingTail` | src/temp_backend/src/lib.rs:66 | the rest of a listing lists the store without its first key |
| `StoreSpec.RunIds` | src/temp_backend/src/lib.rs:42-113 | over any sequence of calls from a valid state: the invariant is kept; the counter rises by exactly the number of `add_task` calls; the ids returned are `nextId+1, nextId+2, …`, so they strictly increase; none was a key of the starting store, whatever was deleted in between |
| `Backend.TaskStore.constructor` | src/temp_backend/src/lib.rs:34-38 | the counter starts at 0, the map starts empty, and the invariant holds |
| `Backend.TaskStore.AddTask` | src/temp_backend/src/lib.rs:43-60 | the new state and id are those of `StoreSpec.Add`; the id equals the new counter, which is the old counter plus one; it was not a key before; the map is the old map plus this one entry; the invariant is kept |
| `Backend.TaskStore.GetTasks` | src/temp_backend/src/lib.rs:64-67 | returns all stored tasks, one per key, in strictly ascending id order, with as many elements as there are keys; changes nothing |
| `Backend.TaskStore.DeleteTask` | src/temp_backend/src/lib.rs:71-81 | a present id gives `Ok` and the map minus that key; an absent id gives `Err("Task not found")` and no change; the counter is never changed; the invariant is kept |
| `Backend.TaskStore.UpdateTask` | src/temp_backend/src/lib.rs:85-113 | an absent id gives `Err("Task not found")` and a non-owner gives `Err("You are not the owner of this task")`, both with no change; otherwise `Ok` and only that entry is replaced by its patched version; the counter is unchanged; the invariant is kept |
| `Backend.AddAddDeleteList` | src/temp_backend/src/lib.rs:43-81 | on a fresh store, adding "A" then "B" returns ids 1 and 2; after deleting 1 the listing is exactly `[Task(2, "B", false, caller)]` |

## Left out

- The React frontend `src/temp_frontend/src/App.jsx` is not part of this model. It holds UI state and rendering and makes asynchronous remote calls to the four entry points. It has no store logic of its own.
- The `Storable` implementation for `Task` (lib.rs:19-29) is left out. It delegates to a CBOR library that is not visible here, so storage is modelled as an abstract map of task values.
- `thread_local!`, `RefCell`, `StableBTreeMap` over `DefaultMemoryImpl`, and the `#[query]`/`#[update]` macros are platform mechanics. They become two class fields. Stable-memory layout and persistence across upgrades are not modelled.
- `ic_cdk::api::caller()` is an external platform call. Each method that reads it takes a `Principal` argument instead.
- Candid encoding of arguments and results, and one-call-at-a-time message execution, are platform behaviour. They are not modelled: every call is one atomic step.
- Backend.TaskStore.AddTask: ids and the counter are unbounded `nat`s rather than `u64`. The model does not capture what happens when `*id += 1` overflows after 2^64 − 1 additions (a trap or a wrap, depending on the build's overflow checks).
- Strings are Dafny `string` values. The UTF-8 representation of Rust `String` is not modelled.
