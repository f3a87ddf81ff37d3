/** What renderTasks computes from the page state: which tasks are visible under the
    current filter, and the list item drawn for each of them. */
module Render {
  import opened Selection
  import opened Tasks

  /** The callback renderTasks passes to tasks.filter: 'active' shows the tasks not yet
      completed, 'completed' the completed ones, and every other filter value every task. */
  predicate Shows(filter: string, t: Task) {
    if filter == "active" then !t.completed
    else if filter == "completed" then t.completed
    else true
  }

  function ShownBy(filter: string): Task -> bool {
    (t: Task) => Shows(filter, t)
  }

  /** filteredTasks in renderTasks. */
  function FilteredTasks(ts: seq<Task>, filter: string): seq<Task> {
    Keep(ts, ShownBy(filter))
  }

  /** Under 'active' the view is exactly the tasks not yet completed, in list order. */
  lemma {:induction false} ActiveViewIsOpenTasks(ts: seq<Task>)
    ensures PicksAt(ts, FilteredTasks(ts, "active"), Positions(ts, ShownBy("active")))
    ensures forall i :: 0 <= i < |ts| ==> (i in Positions(ts, ShownBy("active")) <==> !ts[i].completed)
  {
    KeepSelectsInOrder(ts, ShownBy("active"));
  }

  /** Under 'completed' the view is exactly the completed tasks, in list order. */
  lemma {:induction false} CompletedViewIsDoneTasks(ts: seq<Task>)
    ensures PicksAt(ts, FilteredTasks(ts, "completed"), Positions(ts, ShownBy("completed")))
    ensures forall i :: 0 <= i < |ts| ==> (i in Positions(ts, ShownBy("completed")) <==> ts[i].completed)
  {
    KeepSelectsInOrder(ts, ShownBy("completed"));
  }

  /** Every filter value other than 'active' and 'completed' ('all' among them) shows the
      whole list unchanged. */
  lemma {:induction false} OtherFiltersShowEverything(ts: seq<Task>, filter: string)
    requires filter != "active" && filter != "completed"
    ensures FilteredTasks(ts, filter) == ts
  {
    KeepAll(ts, ShownBy(filter));
  }

  /** 'pending', a filter name the page's comments mention but the filter does not know,
      falls through to the catch-all and shows every task, completed ones included. */
  lemma {:induction false} PendingShowsEverything(ts: seq<Task>)
    ensures FilteredTasks(ts, "pending") == ts
  {
    OtherFiltersShowEverything(ts, "pending");
  }

  /** The 'active' and 'completed' views split the list: their lengths add up to the list's
      and together they hold every task exactly as often as the list does. */
  lemma {:induction false} ActiveAndCompletedPartition(ts: seq<Task>)
    ensures |FilteredTasks(ts, "active")| + |FilteredTasks(ts, "completed")| == |ts|
    ensures multiset(FilteredTasks(ts, "active")) + multiset(FilteredTasks(ts, "completed")) == multiset(ts)
  {
    KeepSplits(ts, ShownBy("active"), ShownBy("completed"));
  }

  /** A task appended to the list (what a successful addTask does) shows up at the end
      of the view when the filter admits it, and leaves the view unchanged when it does not. */
  lemma {:induction false} AppendedTaskShowsLast(ts: seq<Task>, t: Task, filter: string)
    ensures FilteredTasks(ts + [t], filter) ==
      FilteredTasks(ts, filter) + (if Shows(filter, t) then [t] else [])
  {
    KeepAppend(ts, t, ShownBy(filter));
  }

  /** The view after deleting an id is the view before, without the tasks with that id. */
  lemma {:induction false} DeleteThenViewIsViewThenDelete(ts: seq<Task>, id: int, filter: string)
    ensures FilteredTasks(WithoutId(ts, id), filter) == WithoutId(FilteredTasks(ts, filter), id)
  {
    KeepCommutes(ts, OtherThan(id), ShownBy(filter));
  }

  /** One <li> of the task list: its class attribute, whether its checkbox is checked, the
      text it shows and the id its checkbox and delete button pass to the handlers. */
  datatype Item = Item(className: string, checked: bool, text: string, id: int)

  predicate IsClassSeparator(c: char) {
    c == ' ' || c == '\t' || c == '\n' || c == '\U{000C}' || c == '\r'
  }

  /** The class name starts at position i of the class attribute cls, between separators
      or the ends of the attribute. */
  ghost predicate ClassAt(cls: string, name: string, i: int) {
    && 0 <= i <= |cls| - |name|
    && cls[i..i + |name|] == name
    && (i == 0 || IsClassSeparator(cls[i - 1]))
    && (i + |name| == |cls| || IsClassSeparator(cls[i + |name|]))
  }

  /** The class attribute cls lists the class name. */
  ghost predicate HasClass(cls: string, name: string) {
    exists i :: ClassAt(cls, name, i)
  }

  /** The class attribute renderTasks gives a task's item: `task-item ` followed by
      `completed` for a completed task and by nothing otherwise. */
  function ItemClass(completed: bool): (cls: string)
    ensures HasClass(cls, "task-item")
    ensures HasClass(cls, "completed") <==> completed
  {
    ItemClassTokens(completed);
    "task-item " + (if completed then "completed" else "")
  }

  lemma ItemClassTokens(completed: bool)
    ensures var cls := "task-item " + (if completed then "completed" else "");
      HasClass(cls, "task-item") && (HasClass(cls, "completed") <==> completed)
  {
    var cls := "task-item " + (if completed then "completed" else "");
    assert ClassAt(cls, "task-item", 0);
    if completed {
      assert ClassAt(cls, "completed", 10);
    } else {
      forall i ensures !ClassAt(cls, "completed", i) {
        // the attribute is ten characters long, so `completed` could only start at 0 or 1
        if 0 <= i <= 1 {
          assert cls[i..i + 9][0] != 'c';
        }
      }
    }
  }

  /** The item renderTasks draws for a task. */
  function ItemFor(t: Task): (item: Item)
    ensures HasClass(item.className, "completed") <==> t.completed
    ensures item.checked == t.completed
    ensures item.text == t.text && item.id == t.id
  {
    Item(ItemClass(t.completed), t.completed, t.text, t.id)
  }

  /** The list items renderTasks appends, one per visible task, in order. */
  function Items(v: seq<Task>): seq<Item> {
    seq(|v|, i requires 0 <= i < |v| => ItemFor(v[i]))
  }

  /** The k-th item shown carries the `completed` class exactly when the k-th visible task
      is completed, and it is bound to that task's id. */
  lemma {:induction false} ShownItemMarksCompletion(ts: seq<Task>, filter: string, k: nat)
    requires k < |FilteredTasks(ts, filter)|
    ensures |Items(FilteredTasks(ts, filter))| == |FilteredTasks(ts, filter)|
    ensures var t := FilteredTasks(ts, filter)[k];
      && (HasClass(Items(FilteredTasks(ts, filter))[k].className, "completed") <==> t.completed)
      && Items(FilteredTasks(ts, filter))[k].id == t.id
  {
  }
}
