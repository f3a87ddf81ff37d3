/** The task list the page keeps in memory, and the pure effect each handler has on it:
    the lookup toggleTask does with tasks.find, the flip it applies to the task found, and
    the tasks.filter that deleteTask uses to drop a task. */
module Tasks {
  import opened Selection

  /** One task as the page holds it. The server reports `completed` as 0 or 1 and the page
      only ever tests its truth, so it is kept here as a boolean. */
  datatype Task = Task(id: int, text: string, completed: bool)

  datatype Option<T> = None | Some(value: T)

  /** tasks.find(t => t.id === id), given as the position of the task found, since
      toggleTask then updates that very task in place. */
  function FindIndex(ts: seq<Task>, id: int): (r: Option<nat>)
    ensures r.Some? ==> r.value < |ts| && ts[r.value].id == id
    ensures r.Some? ==> forall j :: 0 <= j < r.value ==> ts[j].id != id
    ensures r.None? <==> forall j :: 0 <= j < |ts| ==> ts[j].id != id
  {
    if ts == [] then None
    else if ts[0].id == id then Some(0)
    else match FindIndex(ts[1..], id)
      case None => None
      case Some(i) => Some(i + 1)
  }

  /** The first match is the only position that qualifies as the first match. */
  lemma FindIndexIsFirstMatch(ts: seq<Task>, id: int, i: nat)
    requires i < |ts| && ts[i].id == id
    requires forall j :: 0 <= j < i ==> ts[j].id != id
    ensures FindIndex(ts, id) == Some(i)
  {
  }

  /** toggleTask's local update: the first task with the id has its completion flipped;
      with no such task, the list is returned as it is. */
  function Toggled(ts: seq<Task>, id: int): seq<Task> {
    match FindIndex(ts, id)
    case None => ts
    case Some(i) => ts[i := ts[i].(completed := !ts[i].completed)]
  }

  /** Toggling an id the list does not hold changes nothing. */
  lemma {:induction false} ToggleAbsentIsNoop(ts: seq<Task>, id: int)
    requires forall t :: t in ts ==> t.id != id
    ensures Toggled(ts, id) == ts
  {
    assert forall j :: 0 <= j < |ts| ==> ts[j] in ts;
  }

  /** Toggling a present id flips the completion of the first task with that id and of no
      other task; ids and texts all stay as they were. */
  lemma {:induction false} ToggleFlipsFirstMatchOnly(ts: seq<Task>, id: int, i: nat)
    requires i < |ts| && ts[i].id == id
    requires forall j :: 0 <= j < i ==> ts[j].id != id
    ensures |Toggled(ts, id)| == |ts|
    ensures Toggled(ts, id)[i] == Task(ts[i].id, ts[i].text, !ts[i].completed)
    ensures forall j :: 0 <= j < |ts| && j != i ==> Toggled(ts, id)[j] == ts[j]
  {
    FindIndexIsFirstMatch(ts, id, i);
  }

  /** Toggling the same id twice restores the list. */
  lemma {:induction false} ToggleTwiceRestores(ts: seq<Task>, id: int)
    ensures Toggled(Toggled(ts, id), id) == ts
  {
    match FindIndex(ts, id)
    case None =>
    case Some(i) =>
      var once := Toggled(ts, id);
      FindIndexIsFirstMatch(once, id, i);
  }

  /** The value toggleTask sends in the PUT body, when it sends one: the negation of the
      found task's completion. */
  function ToggleBody(ts: seq<Task>, id: int): Option<bool> {
    match FindIndex(ts, id)
    case None => None
    case Some(i) => Some(!ts[i].completed)
  }

  /** A request is sent exactly when the id is present, and the PUT body carries exactly the
      completion that the task tasks.find returned, the first with the id, holds locally
      after the toggle. */
  lemma {:induction false} ToggleBodyMatchesLocalState(ts: seq<Task>, id: int)
    ensures ToggleBody(ts, id).None? <==> forall t :: t in ts ==> t.id != id
    ensures ToggleBody(ts, id).Some? <==> FindIndex(ts, id).Some?
    ensures ToggleBody(ts, id).Some? ==>
      Toggled(ts, id)[FindIndex(ts, id).value].completed == ToggleBody(ts, id).value
  {
    assert forall j :: 0 <= j < |ts| ==> ts[j] in ts;
    match FindIndex(ts, id)
    case None =>
    case Some(i) =>
      assert Toggled(ts, id)[i].completed == ToggleBody(ts, id).value;
  }

  /** The filter callback deleteTask uses: keep the tasks whose id differs. */
  function OtherThan(id: int): Task -> bool {
    (t: Task) => t.id != id
  }

  /** deleteTask's local update: tasks.filter(task => task.id !== id). */
  function WithoutId(ts: seq<Task>, id: int): seq<Task> {
    Keep(ts, OtherThan(id))
  }

  /** After a delete no task with the id is left, the list never grows, and the tasks that
      remain are exactly the ones with another id, in their original order. */
  lemma {:induction false} DeleteRemovesExactlyTheId(ts: seq<Task>, id: int)
    ensures forall t :: t in WithoutId(ts, id) ==> t.id != id
    ensures |WithoutId(ts, id)| <= |ts|
    ensures PicksAt(ts, WithoutId(ts, id), Positions(ts, OtherThan(id)))
    ensures forall i :: 0 <= i < |ts| ==> (i in Positions(ts, OtherThan(id)) <==> ts[i].id != id)
  {
    KeepSelectsInOrder(ts, OtherThan(id));
  }

  /** Deleting the same id twice is deleting it once. */
  lemma {:induction false} DeleteIdempotent(ts: seq<Task>, id: int)
    ensures WithoutId(WithoutId(ts, id), id) == WithoutId(ts, id)
  {
    KeepIdempotent(ts, OtherThan(id));
  }

  /** Deleting an id the list does not hold leaves the list unchanged. */
  lemma {:induction false} DeleteAbsentIsNoop(ts: seq<Task>, id: int)
    requires forall t :: t in ts ==> t.id != id
    ensures WithoutId(ts, id) == ts
  {
    assert forall j :: 0 <= j < |ts| ==> ts[j] in ts;
    KeepAll(ts, OtherThan(id));
  }
}
