/** The page script's state and its handlers. The globals `tasks` and `currentFilter`, the
    task input box, the filter buttons and the rendered task list are fields of one object;
    each handler is a method that changes them the way the script does. A network request is
    not performed: the handler returns the request it would send, and the way that request
    settles is a parameter. */
module Page {
  import opened Text
  import opened Tasks
  import opened Render
  import opened Selection

  /** How an awaited request settles: it throws (the network failed, or the body was not
      JSON) and the handler's catch runs, or it resolves with a body. fetch resolves on
      every HTTP status, errors included. */
  datatype Reply<T> = Threw | Resolved(body: T)

  /** A request a handler sends to /api/tasks. */
  datatype Request =
    | Post(text: string, completed: bool)  // POST /api/tasks
    | Put(id: int, completed: bool)        // PUT /api/tasks/:id
    | Delete(id: int)                      // DELETE /api/tasks/:id

  /** A button under `.filters`: its text and whether it has the `active` class. */
  datatype FilterButton = FilterButton(textContent: string, active: bool)

  class TaskPage {
    var tasks: seq<Task>
    var currentFilter: string
    var input: string                  // the value of the #taskInput box
    var buttons: seq<FilterButton>     // the `.filters button` elements, in document order
    var shown: seq<Item>               // the children of #taskList

    /** The list on screen is the rendering of the current tasks under the current filter. */
    ghost predicate Valid()
      reads this
    {
      shown == Items(FilteredTasks(tasks, currentFilter))
    }

    /** The page as loaded: no tasks yet, filter 'all', an empty input box and task list. */
    constructor (buttons: seq<FilterButton>)
      ensures Valid()
      ensures tasks == [] && currentFilter == "all" && input == "" && shown == []
      ensures this.buttons == buttons
    {
      tasks := [];
      currentFilter := "all";
      input := "";
      this.buttons := buttons;
      shown := [];
    }

    /** renderTasks: clear the task list and append one item per visible task. */
    method RenderTasks()
      modifies this`shown
      ensures shown == Items(FilteredTasks(tasks, currentFilter))
    {
      var visible := FilteredTasks(tasks, currentFilter);
      shown := [];
      var i := 0;
      while i < |visible|
        invariant 0 <= i <= |visible| && |shown| == i
        invariant forall k :: 0 <= k < i ==> shown[k] == ItemFor(visible[k])
      {
        shown := shown + [ItemFor(visible[i])];
        i := i + 1;
      }
      assert shown == Items(visible);
    }

    /** fetchTasks: replace the list wholesale with what the server returns. */
    method FetchTasks(reply: Reply<seq<Task>>)
      requires Valid()
      modifies this
      ensures Valid()
      ensures tasks == (if reply.Resolved? then reply.body else old(tasks))
      ensures currentFilter == old(currentFilter) && input == old(input) && buttons == old(buttons)
    {
      if reply.Resolved? {
        tasks := reply.body;
        RenderTasks();
      }
    }

    /** addTask: trim the input; an empty result sends nothing and changes nothing.
        Otherwise POST the text with `completed: false`; once the reply arrives, append the
        task it holds and clear the input box. If the request throws, nothing changes. */
    method AddTask(reply: Reply<Task>) returns (sent: Option<Request>)
      requires Valid()
      modifies this
      ensures Valid()
      ensures sent == (if Trim(old(input)) == [] then None else Some(Post(Trim(old(input)), false)))
      ensures sent.Some? ==> sent.value.text != [] && !IsJsWhitespace(sent.value.text[0])
      ensures tasks == (if sent.Some? && reply.Resolved? then old(tasks) + [reply.body] else old(tasks))
      ensures input == (if sent.Some? && reply.Resolved? then "" else old(input))
      ensures currentFilter == old(currentFilter) && buttons == old(buttons)
    {
      var text := Trim(input);
      if text == [] {
        return None;
      }
      sent := Some(Post(text, false));
      if reply.Resolved? {
        tasks := tasks + [reply.body];
        RenderTasks();
        input := "";
      }
    }

    /** toggleTask: find the first task with the id; with none, send nothing. Otherwise PUT
        the negation of its `completed`; once the request resolves, whatever its status,
        flip that task's `completed`. If the request throws, nothing changes. */
    method ToggleTask(id: int, reply: Reply<int>) returns (sent: Option<Request>)
      requires Valid()
      modifies this
      ensures Valid()
      ensures sent == (match ToggleBody(old(tasks), id)
                       case None => None
                       case Some(c) => Some(Put(id, c)))
      ensures tasks == (if sent.Some? && reply.Resolved? then Toggled(old(tasks), id) else old(tasks))
      ensures sent.Some? && reply.Resolved? ==>
        var i := FindIndex(old(tasks), id).value;
        tasks[i].id == id && tasks[i].completed == sent.value.completed
      ensures currentFilter == old(currentFilter) && input == old(input) && buttons == old(buttons)
    {
      var found := FindIndex(tasks, id);
      if found.None? {
        return None;
      }
      var i := found.value;
      sent := Some(Put(id, !tasks[i].completed));
      if reply.Resolved? {
        tasks := tasks[i := tasks[i].(completed := !tasks[i].completed)];
        RenderTasks();
      }
    }

    /** deleteTask: DELETE the id, with no lookup first; once the request resolves,
        whatever its status, keep only the tasks with another id. If the request throws,
        nothing changes. */
    method DeleteTask(id: int, reply: Reply<int>) returns (sent: Request)
      requires Valid()
      modifies this
      ensures Valid()
      ensures sent == Delete(id)
      ensures tasks == (if reply.Resolved? then WithoutId(old(tasks), id) else old(tasks))
      ensures currentFilter == old(currentFilter) && input == old(input) && buttons == old(buttons)
    {
      sent := Delete(id);
      if reply.Resolved? {
        tasks := WithoutId(tasks, id);
        RenderTasks();
      }
    }

    /** filterTasks: set the filter, re-render, then take `active` off every filter button
        and put it back on those whose lower-cased text equals the filter. */
    method FilterTasks(filter: string)
      requires Valid()
      modifies this
      ensures Valid()
      ensures currentFilter == filter
      ensures |buttons| == |old(buttons)|
      ensures forall k :: 0 <= k < |buttons| ==> buttons[k].textContent == old(buttons)[k].textContent
      ensures forall k :: 0 <= k < |buttons| ==> (buttons[k].active <==> Lower(buttons[k].textContent) == filter)
      ensures tasks == old(tasks) && input == old(input)
    {
      currentFilter := filter;
      RenderTasks();
      var i := 0;
      while i < |buttons|
        invariant 0 <= i <= |buttons| && |buttons| == |old(buttons)|
        invariant forall k :: 0 <= k < |buttons| ==> buttons[k].textContent == old(buttons)[k].textContent
        invariant forall k :: 0 <= k < i ==> (buttons[k].active <==> Lower(buttons[k].textContent) == filter)
        modifies this`buttons
      {
        var btn := buttons[i].(active := false);
        if Lower(btn.textContent) == filter {
          btn := btn.(active := true);
        }
        buttons := buttons[i := btn];
        i := i + 1;
      }
    }
  }

  // Sessions on a freshly loaded page, checked against the handlers' contracts alone.

  /** Typing only blanks and pressing Add sends nothing. */
  method BlankEntryIgnored()
  {
    var page := new TaskPage([FilterButton("All", true)]);
    page.input := " \t ";
    var sent := page.AddTask(Resolved(Task(1, "", false)));
    assert sent == None && page.tasks == [] && page.input == " \t ";
  }

  /** A task is added, then its checkbox is clicked while the server answers with an
      error status: the request still resolves, so the local flip happens. */
  method AddThenComplete()
  {
    var milk := Task(1, "milk", false);
    assert SkipLeading("milk", 0) == 0 && SkipTrailing("milk", 0, 4) == 4;
    assert Trim("milk") == "milk"[0..4] == "milk";
    ToggleFlipsFirstMatchOnly([milk], 1, 0);

    var page := new TaskPage([FilterButton("All", true)]);
    page.input := "milk";
    var sent := page.AddTask(Resolved(milk));
    assert sent == Some(Post("milk", false));
    assert page.tasks == [milk] && page.input == "";

    sent := page.ToggleTask(1, Resolved(500));
    assert sent == Some(Put(1, true)) && page.tasks == [milk.(completed := true)];
  }

  /** With one completed task loaded, switching to 'active' lights the Active button and
      empties the list. */
  method FilterActive()
  {
    var done := Task(1, "milk", true);
    assert LowerChar('A') == 'a' && Lower("ctive") == "ctive";
    assert Lower("Active") == "active";
    assert FilteredTasks([done], "active") == [] by {
      assert !ShownBy("active")(done);
    }

    var page := new TaskPage([FilterButton("All", true), FilterButton("Active", false)]);
    page.FetchTasks(Resolved([done]));
    page.FilterTasks("active");
    assert page.buttons[1].active && !page.buttons[0].active;
    assert page.shown == [];
  }

  /** Clicking a checkbox whose task is no longer in the list sends nothing. */
  method StaleToggle()
  {
    var done := Task(1, "milk", true);
    assert FindIndex([done], 7) == None;

    var page := new TaskPage([]);
    page.FetchTasks(Resolved([done]));
    var sent := page.ToggleTask(7, Resolved(200));
    assert sent == None && page.tasks == [done];
  }

  /** A delete whose request throws changes nothing; once it goes through, the task is gone. */
  method DeleteTwice()
  {
    var done := Task(1, "milk", true);
    assert WithoutId([done], 1) == [] by {
      assert !OtherThan(1)(done);
    }

    var page := new TaskPage([]);
    page.FetchTasks(Resolved([done]));
    var sent := page.DeleteTask(1, Threw);
    assert page.tasks == [done];
    sent := page.DeleteTask(1, Resolved(200));
    assert sent == Delete(1) && page.tasks == [];
  }
}
