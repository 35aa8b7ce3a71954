/** The task list of the to-do app as a value: the records it holds and the
    pure operations on it (removal by position, the view filter, and the
    list that toggling or renaming one entry produces). */
module Tasks {

  /** One entry of the list. It has no identifier: a task is known by its
      position in the list. */
  datatype Task = Task(text: string, completed: bool)

  /** `tasks.filter((_, i) => i !== index)`: keeps every entry whose position
      differs from `index`. Exactly the entry at `index` goes, the others
      keep their order, and an index outside the list removes nothing. */
  function Delete(tasks: seq<Task>, index: int): (r: seq<Task>)
    ensures 0 <= index < |tasks| ==> r == tasks[..index] + tasks[index + 1..]
    ensures 0 <= index < |tasks| ==> |r| == |tasks| - 1
    ensures !(0 <= index < |tasks|) ==> r == tasks
  {
    if tasks == [] then []
    else
      var rest := Delete(tasks[1..], index - 1);
      if index == 0 then
        rest
      else
        assert 0 < index < |tasks| ==> tasks[1..][..index - 1] == tasks[1..index];
        [tasks[0]] + rest
  }

  /** The view filter's predicate: "active" keeps the open tasks, "completed"
      the finished ones, and every other filter value keeps everything. */
  predicate Keep(filter: string, t: Task) {
    if filter == "active" then !t.completed
    else if filter == "completed" then t.completed
    else true
  }

  /** `filteredTasks`: the entries the filter keeps, in list order. It never
      grows the list, holds only kept entries, and under a filter value other
      than "active" or "completed" it is the whole list, so that view
      positions and list positions coincide. */
  function Visible(tasks: seq<Task>, filter: string): (r: seq<Task>)
    ensures |r| <= |tasks|
    ensures forall i :: 0 <= i < |r| ==> Keep(filter, r[i])
    ensures filter != "active" && filter != "completed" ==> r == tasks
  {
    if tasks == [] then []
    else
      var rest := Visible(tasks[1..], filter);
      if Keep(filter, tasks[0]) then
        assert tasks == [tasks[0]] + tasks[1..];
        [tasks[0]] + rest
      else rest
  }

  /** The filter is stable: filtering a concatenation filters each part and
      concatenates the results in the same order. */
  lemma {:induction false} VisibleAppend(a: seq<Task>, b: seq<Task>, filter: string)
    ensures Visible(a + b, filter) == Visible(a, filter) + Visible(b, filter)
  {
    if a != [] {
      assert (a + b)[1..] == a[1..] + b;
      VisibleAppend(a[1..], b, filter);
    } else {
      assert a + b == b;
    }
  }

  /** A one-entry list shows its entry exactly when the filter keeps it. */
  lemma VisibleSingleton(t: Task, filter: string)
    ensures Visible([t], filter) == if Keep(filter, t) then [t] else []
  {
    assert [t][1..] == [];
  }

  /** A task is shown exactly when it is in the list and the filter keeps it. */
  lemma {:induction false} VisibleMember(tasks: seq<Task>, filter: string, t: Task)
    ensures t in Visible(tasks, filter) <==> t in tasks && Keep(filter, t)
  {
    if tasks != [] {
      VisibleMember(tasks[1..], filter, t);
      assert tasks == [tasks[0]] + tasks[1..];
    }
  }

  /** The "active" and "completed" views split the list: together they hold
      every entry exactly as often as the list does, so their lengths add up
      to the list's length. */
  lemma {:induction false} VisiblePartition(tasks: seq<Task>)
    ensures multiset(Visible(tasks, "active")) + multiset(Visible(tasks, "completed")) == multiset(tasks)
    ensures |Visible(tasks, "active")| + |Visible(tasks, "completed")| == |tasks|
  {
    if tasks != [] {
      VisiblePartition(tasks[1..]);
      assert tasks == [tasks[0]] + tasks[1..];
    }
    assert |multiset(Visible(tasks, "active"))| == |Visible(tasks, "active")|;
    assert |multiset(Visible(tasks, "completed"))| == |Visible(tasks, "completed")|;
  }

  /** Filtering after one slot is overwritten: the parts before and after the
      slot are filtered as before. */
  lemma VisibleUpdate(tasks: seq<Task>, index: nat, t: Task, filter: string)
    requires index < |tasks|
    ensures Visible(tasks[index := t], filter)
      == Visible(tasks[..index], filter) + Visible([t], filter) + Visible(tasks[index + 1..], filter)
  {
    assert tasks[index := t] == tasks[..index] + [t] + tasks[index + 1..];
    VisibleAppend(tasks[..index] + [t], tasks[index + 1..], filter);
    VisibleAppend(tasks[..index], [t], filter);
  }

  /** The list after `toggleTask(index)`: the entry at `index` has its
      `completed` flag negated and keeps its text; every other entry and the
      length are unchanged. */
  function Toggled(tasks: seq<Task>, index: nat): (r: seq<Task>)
    requires index < |tasks|
    ensures |r| == |tasks|
    ensures r[index].text == tasks[index].text
    ensures r[index].completed == !tasks[index].completed
    ensures forall j :: 0 <= j < |tasks| && j != index ==> r[j] == tasks[j]
  {
    tasks[index := tasks[index].(completed := !tasks[index].completed)]
  }

  /** Toggling the same entry twice restores the list. */
  lemma ToggledTwice(tasks: seq<Task>, index: nat)
    requires index < |tasks|
    ensures Toggled(Toggled(tasks, index), index) == tasks
  {
  }

  /** Toggling moves one entry between the "active" and "completed" views:
      the view it leaves shrinks by one and the view it joins grows by one. */
  lemma ToggledMovesBetweenViews(tasks: seq<Task>, index: nat)
    requires index < |tasks|
    ensures tasks[index].completed ==>
      && |Visible(Toggled(tasks, index), "active")| == |Visible(tasks, "active")| + 1
      && |Visible(Toggled(tasks, index), "completed")| == |Visible(tasks, "completed")| - 1
    ensures !tasks[index].completed ==>
      && |Visible(Toggled(tasks, index), "active")| == |Visible(tasks, "active")| - 1
      && |Visible(Toggled(tasks, index), "completed")| == |Visible(tasks, "completed")| + 1
  {
    var t := tasks[index];
    assert tasks[index := t] == tasks;
    VisibleUpdate(tasks, index, t, "active");
    VisibleUpdate(tasks, index, t, "completed");
    VisibleUpdate(tasks, index, t.(completed := !t.completed), "active");
    VisibleUpdate(tasks, index, t.(completed := !t.completed), "completed");
    VisibleSingleton(t, "active");
    VisibleSingleton(t, "completed");
    VisibleSingleton(t.(completed := !t.completed), "active");
    VisibleSingleton(t.(completed := !t.completed), "completed");
  }

  /** The list after a committed edit: the entry at `index` carries `text`
      and keeps its `completed` flag; every other entry and the length are
      unchanged. */
  function Renamed(tasks: seq<Task>, index: nat, text: string): (r: seq<Task>)
    requires index < |tasks|
    ensures |r| == |tasks|
    ensures r[index].text == text
    ensures r[index].completed == tasks[index].completed
    ensures forall j :: 0 <= j < |tasks| && j != index ==> r[j] == tasks[j]
  {
    tasks[index := tasks[index].(text := text)]
  }

  /** Renaming never moves an entry between views: under every filter the
      view keeps its length. */
  lemma RenamedKeepsViews(tasks: seq<Task>, index: nat, text: string, filter: string)
    requires index < |tasks|
    ensures |Visible(Renamed(tasks, index, text), filter)| == |Visible(tasks, filter)|
  {
    var t := tasks[index];
    assert tasks[index := t] == tasks;
    VisibleUpdate(tasks, index, t, filter);
    VisibleUpdate(tasks, index, t.(text := text), filter);
    VisibleSingleton(t, filter);
    VisibleSingleton(t.(text := text), filter);
  }

  /** The row handlers receive a position in the filtered view but index the
      whole list. Under "active", with a finished "a" before an open "b", the
      only row shown is "b", yet its checkbox (view position 0) toggles "a". */
  lemma ViewPositionIsNotListPosition()
    ensures var tasks := [Task("a", true), Task("b", false)];
      && Visible(tasks, "active") == [Task("b", false)]
      && Toggled(tasks, 0) == [Task("a", false), Task("b", false)]
  {
    var tasks := [Task("a", true), Task("b", false)];
    assert tasks[1..][1..] == [];
  }

  /** The rename counterpart: under "active", with a finished "a" before an
      open "b", the edit box of the only shown row starts from "b" (view
      position 0), but committing at position 0 renames the hidden "a". */
  lemma ViewEditRenamesOtherTask(text: string)
    ensures var tasks := [Task("a", true), Task("b", false)];
      && Visible(tasks, "active")[0].text == "b"
      && Renamed(tasks, 0, text) == [Task(text, true), Task("b", false)]
  {
    var tasks := [Task("a", true), Task("b", false)];
    assert tasks[1..][1..] == [];
  }
}
