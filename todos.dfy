/**
 * The write operations of the todo page.  Each builds the list of operations
 * it hands to the hosted database in one transaction; `Apply` gives the
 * effect of such a list on the todo list the page shows.
 */
module Todos {
  import opened Wrappers
  import opened Sequences

  type Id = string

  datatype Todo = Todo(id: Id, text: string, done: bool, createdAt: int)

  /** The attributes an update sets; an absent one keeps its value. */
  datatype Patch = Patch(text: Option<string>, done: Option<bool>, createdAt: Option<int>)

  /** `db.tx.todos[id].update(patch)` and `db.tx.todos[id].delete()`. */
  datatype Op = Update(id: Id, patch: Patch) | Delete(id: Id)

  predicate UniqueIds(todos: seq<Todo>)
  {
    forall i, j :: 0 <= i < j < |todos| ==> todos[i].id != todos[j].id
  }

  predicate HasId(todos: seq<Todo>, id: Id)
  {
    exists i :: 0 <= i < |todos| && todos[i].id == id
  }

  // ---------------------------------------------------------------------
  // Applying a transaction to the todo list
  // ---------------------------------------------------------------------

  function PatchTodo(t: Todo, p: Patch): Todo
  {
    Todo(t.id, p.text.GetOr(t.text), p.done.GetOr(t.done), p.createdAt.GetOr(t.createdAt))
  }

  /** The todo an update creates when no todo has its id. */
  function Created(id: Id, p: Patch): Todo
  {
    Todo(id, p.text.GetOr(""), p.done.GetOr(false), p.createdAt.GetOr(0))
  }

  /** Patches every todo with the given id and leaves the others alone. */
  function PatchId(todos: seq<Todo>, id: Id, p: Patch): (r: seq<Todo>)
    ensures |r| == |todos|
    ensures forall i :: 0 <= i < |todos| ==> r[i] == if todos[i].id == id then PatchTodo(todos[i], p) else todos[i]
  {
    if todos == [] then []
    else [if todos[0].id == id then PatchTodo(todos[0], p) else todos[0]] + PatchId(todos[1..], id, p)
  }

  /** Removes every todo with the given id, keeping the order of the others. */
  function RemoveId(todos: seq<Todo>, id: Id): seq<Todo>
  {
    if todos == [] then []
    else (if todos[0].id == id then [] else [todos[0]]) + RemoveId(todos[1..], id)
  }

  function ApplyOp(todos: seq<Todo>, op: Op): seq<Todo>
  {
    match op
    case Delete(id) => RemoveId(todos, id)
    case Update(id, p) => if HasId(todos, id) then PatchId(todos, id, p) else todos + [Created(id, p)]
  }

  /** The todo list after a transaction: its operations in order. */
  function Apply(todos: seq<Todo>, ops: seq<Op>): seq<Todo>
    decreases |ops|
  {
    if ops == [] then todos else Apply(ApplyOp(todos, ops[0]), ops[1..])
  }

  // ---------------------------------------------------------------------
  // The transactions the page builds
  // ---------------------------------------------------------------------

  /** `addTodo(text)`, where `newId` is the fresh `id()` and `now` is `Date.now()`. */
  function AddTodo(text: string, newId: Id, now: int): seq<Op>
  {
    [Update(newId, Patch(Some(text), Some(false), Some(now)))]
  }

  /** `deleteTodo(todo)` */
  function DeleteTodo(todo: Todo): seq<Op>
  {
    [Delete(todo.id)]
  }

  /** `toggleDone(todo)` */
  function ToggleDone(todo: Todo): seq<Op>
  {
    [Update(todo.id, Patch(None, Some(!todo.done), None))]
  }

  /** `todos.filter(todo => todo.done)` */
  function Completed(todos: seq<Todo>): (r: seq<Todo>)
    ensures |r| <= |todos|
    ensures forall t :: t in r <==> t in todos && t.done
  {
    if todos == [] then []
    else (if todos[0].done then [todos[0]] else []) + Completed(todos[1..])
  }

  /** `todos.filter(todo => !todo.done)` */
  function Undone(todos: seq<Todo>): (r: seq<Todo>)
    ensures |r| <= |todos|
    ensures forall t :: t in r <==> t in todos && !t.done
  {
    if todos == [] then []
    else (if todos[0].done then [] else [todos[0]]) + Undone(todos[1..])
  }

  /** `filter` keeps each done todo as many times as it occurs, and nothing else. */
  lemma {:induction false} CompletedCounts(todos: seq<Todo>)
    ensures forall t :: multiset(Completed(todos))[t] == if t.done then multiset(todos)[t] else 0
  {
    if todos != [] {
      CompletedCounts(todos[1..]);
      assert todos == [todos[0]] + todos[1..];
    }
  }

  /** `filter` keeps each undone todo as many times as it occurs, and nothing else. */
  lemma {:induction false} UndoneCounts(todos: seq<Todo>)
    ensures forall t :: multiset(Undone(todos))[t] == if t.done then 0 else multiset(todos)[t]
  {
    if todos != [] {
      UndoneCounts(todos[1..]);
      assert todos == [todos[0]] + todos[1..];
    }
  }

  /**
   * The completed todos are the todos at exactly the done positions, in list
   * order: `idx` lists those positions, increasing.
   */
  lemma {:induction false} CompletedAtDonePositions(todos: seq<Todo>) returns (idx: seq<int>)
    ensures Embeds(Completed(todos), todos, idx)
    ensures forall i :: 0 <= i < |todos| ==> (i in idx <==> todos[i].done)
  {
    if todos == [] {
      idx := [];
    } else {
      var rest := CompletedAtDonePositions(todos[1..]);
      EmbedsInTail(Completed(todos[1..]), todos, rest);
      ShiftedMembers(rest);
      assert -1 !in rest;
      if todos[0].done {
        assert Completed(todos) == [todos[0]] + Completed(todos[1..]);
        idx := [0] + Shifted(rest);
      } else {
        assert Completed(todos) == Completed(todos[1..]);
        idx := Shifted(rest);
      }
      forall i | 0 <= i < |todos| ensures i in idx <==> todos[i].done {
        if i > 0 {
          assert todos[i] == todos[1..][i - 1];
        }
      }
    }
  }

  /**
   * The remaining todos are the todos at exactly the undone positions, in list
   * order, so `Remaining` counts the undone positions: `idx` lists them, increasing.
   */
  lemma {:induction false} UndoneAtUndonePositions(todos: seq<Todo>) returns (idx: seq<int>)
    ensures Embeds(Undone(todos), todos, idx)
    ensures forall i :: 0 <= i < |todos| ==> (i in idx <==> !todos[i].done)
    ensures Remaining(todos) == |idx|
  {
    if todos == [] {
      idx := [];
    } else {
      var rest := UndoneAtUndonePositions(todos[1..]);
      EmbedsInTail(Undone(todos[1..]), todos, rest);
      ShiftedMembers(rest);
      assert -1 !in rest;
      if todos[0].done {
        assert Undone(todos) == Undone(todos[1..]);
        idx := Shifted(rest);
      } else {
        assert Undone(todos) == [todos[0]] + Undone(todos[1..]);
        idx := [0] + Shifted(rest);
      }
      forall i | 0 <= i < |todos| ensures i in idx <==> !todos[i].done {
        if i > 0 {
          assert todos[i] == todos[1..][i - 1];
        }
      }
    }
  }

  /** One delete per todo, in list order. */
  function DeleteOps(todos: seq<Todo>): (ops: seq<Op>)
    ensures |ops| == |todos|
    ensures forall k :: 0 <= k < |todos| ==> ops[k] == Delete(todos[k].id)
  {
    if todos == [] then [] else [Delete(todos[0].id)] + DeleteOps(todos[1..])
  }

  /** `deleteCompleted(todos)` */
  function DeleteCompleted(todos: seq<Todo>): seq<Op>
  {
    DeleteOps(Completed(todos))
  }

  /** `todos.every(todo => todo.done)`; true of the empty list. */
  predicate AllDone(todos: seq<Todo>)
  {
    forall i :: 0 <= i < |todos| ==> todos[i].done
  }

  /** One update setting `done` to `v` per todo, in list order. */
  function SetDoneOps(todos: seq<Todo>, v: bool): (ops: seq<Op>)
    ensures |ops| == |todos|
    ensures forall k :: 0 <= k < |todos| ==> ops[k] == Update(todos[k].id, Patch(None, Some(v), None))
  {
    if todos == [] then [] else [Update(todos[0].id, Patch(None, Some(v), None))] + SetDoneOps(todos[1..], v)
  }

  /** `toggleAll(todos)` */
  function ToggleAll(todos: seq<Todo>): seq<Op>
  {
    SetDoneOps(todos, !AllDone(todos))
  }

  /** The "Remaining todos" count: `todos.filter(todo => !todo.done).length`. */
  function Remaining(todos: seq<Todo>): nat
  {
    |Undone(todos)|
  }

  /** `numUsers`: this client plus one per peer present in the room. */
  function NumUsers(peers: set<Id>): (n: nat)
    ensures n >= 1
    ensures n - 1 == |peers|
  {
    1 + |peers|
  }

  // ---------------------------------------------------------------------
  // What each transaction does to the list
  // ---------------------------------------------------------------------

  /** Adding creates exactly one todo, at the end, with the text, not done and stamped `now`. */
  lemma AddTodoAppends(todos: seq<Todo>, text: string, newId: Id, now: int)
    requires !HasId(todos, newId)
    ensures Apply(todos, AddTodo(text, newId, now)) == todos + [Todo(newId, text, false, now)]
  {
  }

  /** Toggling flips `done` on the given todo and changes nothing else. */
  lemma ToggleDoneFlipsOne(todos: seq<Todo>, k: nat)
    requires UniqueIds(todos) && k < |todos|
    ensures Apply(todos, ToggleDone(todos[k])) == todos[k := todos[k].(done := !todos[k].done)]
  {
    var id := todos[k].id;
    var p := Patch(None, Some(!todos[k].done), None);
    assert HasId(todos, id);
    var r := PatchId(todos, id, p);
    assert Apply(todos, ToggleDone(todos[k])) == Apply(r, []);
    forall i | 0 <= i < |todos| ensures r[i] == todos[k := todos[k].(done := !todos[k].done)][i] {
      if i != k {
        assert todos[i].id != id;
      }
    }
  }

  lemma {:induction false} RemoveAbsentId(todos: seq<Todo>, id: Id)
    requires !HasId(todos, id)
    ensures RemoveId(todos, id) == todos
  {
    if todos != [] {
      assert todos[0].id != id;
      assert !HasId(todos[1..], id) by {
        forall i | 0 <= i < |todos[1..]| ensures todos[1..][i].id != id {
          assert todos[1..][i] == todos[i + 1];
        }
      }
      RemoveAbsentId(todos[1..], id);
    }
  }

  /** Deleting removes exactly the given todo and keeps the others in order. */
  lemma {:induction false} DeleteTodoRemovesOne(todos: seq<Todo>, k: nat)
    requires UniqueIds(todos) && k < |todos|
    ensures Apply(todos, DeleteTodo(todos[k])) == todos[..k] + todos[k + 1..]
  {
    assert Apply(todos, DeleteTodo(todos[k])) == RemoveId(todos, todos[k].id);
    if k == 0 {
      assert !HasId(todos[1..], todos[0].id) by {
        forall i | 0 <= i < |todos[1..]| ensures todos[1..][i].id != todos[0].id {
          assert todos[1..][i] == todos[i + 1];
        }
      }
      RemoveAbsentId(todos[1..], todos[0].id);
    } else {
      var tail := todos[1..];
      assert UniqueIds(tail) by {
        forall i, j | 0 <= i < j < |tail| ensures tail[i].id != tail[j].id {
          assert tail[i] == todos[i + 1] && tail[j] == todos[j + 1];
        }
      }
      assert tail[k - 1] == todos[k];
      DeleteTodoRemovesOne(tail, k - 1);
      assert todos[0].id != todos[k].id;
      assert todos[..k] + todos[k + 1..] == [todos[0]] + (tail[..k - 1] + tail[k..]);
    }
  }

  /** Removes every todo whose id is in `ids`, keeping the order of the others. */
  function RemoveIds(todos: seq<Todo>, ids: set<Id>): (r: seq<Todo>)
  {
    if todos == [] then []
    else (if todos[0].id in ids then [] else [todos[0]]) + RemoveIds(todos[1..], ids)
  }

  lemma {:induction false} RemoveIdAfterIds(todos: seq<Todo>, ids: set<Id>, id: Id)
    ensures RemoveId(RemoveIds(todos, ids), id) == RemoveIds(todos, ids + {id})
  {
    if todos != [] {
      RemoveIdAfterIds(todos[1..], ids, id);
      var head := if todos[0].id in ids then [] else [todos[0]];
      assert RemoveIds(todos, ids) == head + RemoveIds(todos[1..], ids);
      RemoveIdDistributes(head, RemoveIds(todos[1..], ids), id);
    }
  }

  lemma {:induction false} RemoveIdDistributes(a: seq<Todo>, b: seq<Todo>, id: Id)
    ensures RemoveId(a + b, id) == RemoveId(a, id) + RemoveId(b, id)
  {
    if a != [] {
      assert (a + b)[1..] == a[1..] + b;
      RemoveIdDistributes(a[1..], b, id);
    } else {
      assert a + b == b;
    }
  }

  /** The ids of the given todos. */
  function IdSet(todos: seq<Todo>): (ids: set<Id>)
    ensures forall i :: 0 <= i < |todos| ==> todos[i].id in ids
    ensures forall id :: id in ids ==> exists i :: 0 <= i < |todos| && todos[i].id == id
  {
    if todos == [] then {}
    else
      var rest := IdSet(todos[1..]);
      assert forall i :: 1 <= i < |todos| ==> todos[i] == todos[1..][i - 1];
      {todos[0].id} + rest
  }

  /** A transaction of deletes removes exactly the todos whose ids it names. */
  lemma {:induction false} ApplyDeleteOps(todos: seq<Todo>, ids: set<Id>, gone: seq<Todo>)
    ensures Apply(RemoveIds(todos, ids), DeleteOps(gone)) == RemoveIds(todos, ids + IdSet(gone))
    decreases |gone|
  {
    if gone == [] {
      assert ids + IdSet(gone) == ids;
    } else {
      var ops := DeleteOps(gone);
      var id := gone[0].id;
      assert ops[0] == Delete(id) && ops[1..] == DeleteOps(gone[1..]);
      var after := ApplyOp(RemoveIds(todos, ids), ops[0]);
      assert Apply(RemoveIds(todos, ids), ops) == Apply(after, ops[1..]);
      RemoveIdAfterIds(todos, ids, id);
      assert after == RemoveIds(todos, ids + {id});
      ApplyDeleteOps(todos, ids + {id}, gone[1..]);
      assert ids + {id} + IdSet(gone[1..]) == ids + IdSet(gone);
    }
  }

  lemma {:induction false} RemoveNoIds(todos: seq<Todo>)
    ensures RemoveIds(todos, {}) == todos
  {
    if todos != [] {
      RemoveNoIds(todos[1..]);
    }
  }

  lemma {:induction false} RemoveIdsOfDone(todos: seq<Todo>, ids: set<Id>)
    requires forall t :: t in todos ==> (t.id in ids <==> t.done)
    ensures RemoveIds(todos, ids) == Undone(todos)
  {
    if todos != [] {
      assert todos[0] in todos;
      assert forall t :: t in todos[1..] ==> t in todos;
      RemoveIdsOfDone(todos[1..], ids);
    }
  }

  /** With unique ids, a todo's id is among the completed ones' exactly when it is done. */
  lemma CompletedIdsAreDone(todos: seq<Todo>)
    requires UniqueIds(todos)
    ensures forall t :: t in todos ==> (t.id in IdSet(Completed(todos)) <==> t.done)
  {
    var done := Completed(todos);
    forall t | t in todos ensures t.id in IdSet(done) <==> t.done {
      if t.id in IdSet(done) {
        var m :| 0 <= m < |done| && done[m].id == t.id;
        assert done[m] in done;
        var i :| 0 <= i < |todos| && todos[i] == t;
        var j :| 0 <= j < |todos| && todos[j] == done[m];
        assert i == j;
      }
    }
  }

  /**
   * Deleting the completed todos leaves exactly the undone ones, in order:
   * nothing left is done, and the remaining count is unchanged and equals the
   * length of the list.
   */
  lemma DeleteCompletedKeepsUndone(todos: seq<Todo>)
    requires UniqueIds(todos)
    ensures Apply(todos, DeleteCompleted(todos)) == Undone(todos)
    ensures forall t :: t in Apply(todos, DeleteCompleted(todos)) ==> !t.done
    ensures Remaining(Apply(todos, DeleteCompleted(todos))) == Remaining(todos) == |Apply(todos, DeleteCompleted(todos))|
  {
    RemoveNoIds(todos);
    ApplyDeleteOps(todos, {}, Completed(todos));
    assert {} + IdSet(Completed(todos)) == IdSet(Completed(todos));
    CompletedIdsAreDone(todos);
    RemoveIdsOfDone(todos, IdSet(Completed(todos)));
    UndoneOfUndone(todos);
  }

  lemma {:induction false} UndoneOfUndone(todos: seq<Todo>)
    ensures Undone(Undone(todos)) == Undone(todos)
  {
    if todos != [] {
      UndoneOfUndone(todos[1..]);
      var u := Undone(todos);
      if !todos[0].done {
        assert u == [todos[0]] + Undone(todos[1..]);
        assert u[0] == todos[0] && u[1..] == Undone(todos[1..]);
        assert Undone(u) == [u[0]] + Undone(u[1..]);
      } else {
        assert u == Undone(todos[1..]);
      }
    }
  }

  /** Every todo is either remaining or deleted by `deleteCompleted`. */
  lemma {:induction false} RemainingPlusCompleted(todos: seq<Todo>)
    ensures Remaining(todos) + |DeleteCompleted(todos)| == |todos|
  {
    if todos != [] {
      RemainingPlusCompleted(todos[1..]);
    }
  }

  /** `after` is `before` with `done` set to `v` on exactly the todos whose ids are in `ids`. */
  ghost predicate DoneSetOn(before: seq<Todo>, after: seq<Todo>, ids: set<Id>, v: bool)
  {
    |after| == |before| &&
    forall i :: 0 <= i < |before| ==> after[i] == if before[i].id in ids then before[i].(done := v) else before[i]
  }

  /** A single `done := v` update sets `done` on exactly the todos with that id. */
  lemma PatchDoneSetsOne(todos: seq<Todo>, id: Id, v: bool)
    ensures DoneSetOn(todos, PatchId(todos, id, Patch(None, Some(v), None)), {id}, v)
  {
  }

  /** Setting `done` for `s` and then for `t` is setting it for `s + t`. */
  lemma DoneSetOnCompose(a: seq<Todo>, b: seq<Todo>, c: seq<Todo>, s: set<Id>, t: set<Id>, v: bool)
    requires DoneSetOn(a, b, s, v) && DoneSetOn(b, c, t, v)
    ensures DoneSetOn(a, c, s + t, v)
  {
    forall i | 0 <= i < |a| ensures c[i] == if a[i].id in s + t then a[i].(done := v) else a[i] {
      assert b[i].id == a[i].id;
    }
  }

  /**
   * A transaction of `done := v` updates for todos present in the list sets
   * `done` to `v` on exactly the todos whose ids it names.
   */
  lemma {:induction false} ApplySetDoneOps(todos: seq<Todo>, v: bool, targets: seq<Todo>)
    requires forall k :: 0 <= k < |targets| ==> HasId(todos, targets[k].id)
    ensures DoneSetOn(todos, Apply(todos, SetDoneOps(targets, v)), IdSet(targets), v)
    decreases |targets|
  {
    if targets == [] {
      assert DoneSetOn(todos, todos, {}, v);
    } else {
      var id := targets[0].id;
      var ops := SetDoneOps(targets, v);
      assert ops[0] == Update(id, Patch(None, Some(v), None)) && ops[1..] == SetDoneOps(targets[1..], v);
      var next := PatchId(todos, id, Patch(None, Some(v), None));
      assert HasId(todos, id);
      assert Apply(todos, ops) == Apply(next, ops[1..]);
      PatchDoneSetsOne(todos, id, v);
      forall k | 0 <= k < |targets[1..]| ensures HasId(next, targets[1..][k].id) {
        assert targets[1..][k] == targets[k + 1];
        var i :| 0 <= i < |todos| && todos[i].id == targets[k + 1].id;
        assert next[i].id == todos[i].id;
      }
      ApplySetDoneOps(next, v, targets[1..]);
      DoneSetOnCompose(todos, next, Apply(todos, ops), {id}, IdSet(targets[1..]), v);
      assert IdSet(targets) == {id} + IdSet(targets[1..]);
    }
  }

  /**
   * `toggleAll` sets every todo's `done` to the negation of "all are done":
   * when all are done (the empty list included) all become undone, otherwise
   * all become done, and nothing else changes.
   */
  lemma ToggleAllSetsEvery(todos: seq<Todo>)
    ensures |Apply(todos, ToggleAll(todos))| == |todos|
    ensures forall i :: 0 <= i < |todos| ==> Apply(todos, ToggleAll(todos))[i] == todos[i].(done := !AllDone(todos))
    ensures AllDone(todos) ==> forall t :: t in Apply(todos, ToggleAll(todos)) ==> !t.done
    ensures !AllDone(todos) ==> forall t :: t in Apply(todos, ToggleAll(todos)) ==> t.done
  {
    var v := !AllDone(todos);
    assert forall k :: 0 <= k < |todos| ==> HasId(todos, todos[k].id);
    ApplySetDoneOps(todos, v, todos);
    var r := Apply(todos, ToggleAll(todos));
    forall i | 0 <= i < |todos| ensures r[i] == todos[i].(done := v) {
      assert todos[i].id in IdSet(todos);
    }
  }
}
