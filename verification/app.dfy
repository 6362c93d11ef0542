/**
 The `App` component's state as a sequential state machine: the list, the
 new-task draft, the transient editing selection, the `isInitialized` flag
 and the browser's local storage. Each user action runs its handler; when
 the handler replaced the list, the save effect runs after it. Mounting
 runs the load effect once and then the save effect, in the order the
 component declares them.

 `JSON.parse` and `JSON.stringify` are not modelled: they are the two
 functions of a `Codec` the operations take as a parameter, and so are the
 clock readings.
 */
module App {

  import opened Wrappers
  import opened Text
  import opened Todos

  /** The one local-storage key the app reads and writes. */
  const StorageKey: string := "todos"

  /** Local storage: string keys to string values. */
  type Storage = map<string, string>

  /** Serialisation of the list: `parse` answers `None` where `JSON.parse`
      throws. */
  datatype Codec = Codec(parse: string -> Option<seq<Todo>>, stringify: seq<Todo> -> string)

  datatype State = State(
    todos: seq<Todo>,
    newTodo: string,
    editingId: Option<string>,
    editingText: string,
    isInitialized: bool,
    storage: Storage)

  predicate NotEditing(st: State) {
    st.editingId == None && st.editingText == ""
  }

  /** Once initialised, storage holds the serialised current list. */
  predicate Synced(st: State, codec: Codec) {
    st.isInitialized ==>
      StorageKey in st.storage && st.storage[StorageKey] == codec.stringify(st.todos)
  }

  /** `parse` gives `todos` back from its serialisation, which is not the
      empty string (`JSON.stringify` of an array never is). */
  predicate RoundTrips(codec: Codec, todos: seq<Todo>) {
    codec.stringify(todos) != "" && codec.parse(codec.stringify(todos)) == Some(todos)
  }

  /** The `useState` initial values, over whatever storage already holds. */
  function Initial(storage: Storage): (st: State)
    ensures st.todos == [] && st.newTodo == "" && NotEditing(st)
    ensures !st.isInitialized && st.storage == storage
  {
    State([], "", None, "", false, storage)
  }

  // ---------------------------------------------------------------------
  // The load and save effects

  /** What the load effect puts in the list: the seed list when the key is
      absent or holds the empty string (both falsy) or when parsing fails,
      and the parsed list verbatim otherwise. */
  function LoadedTodos(storage: Storage, codec: Codec, now: int): (r: seq<Todo>)
    ensures StorageKey !in storage ==> r == Seed(now)
    ensures StorageKey in storage && storage[StorageKey] == "" ==> r == Seed(now)
    ensures StorageKey in storage && storage[StorageKey] != "" ==>
      match codec.parse(storage[StorageKey])
      case None => r == Seed(now)
      case Some(parsed) => r == parsed
  {
    if StorageKey in storage && storage[StorageKey] != "" then
      match codec.parse(storage[StorageKey])
      case Some(parsed) => parsed
      case None => Seed(now)
    else
      Seed(now)
  }

  /** The load effect: reads storage without writing it, sets the list and
      then, in every outcome, `isInitialized`. */
  function Load(st: State, codec: Codec, now: int): (r: State)
    ensures r.isInitialized && r.storage == st.storage
    ensures r.todos == LoadedTodos(st.storage, codec, now)
    ensures r.newTodo == st.newTodo && r.editingId == st.editingId && r.editingText == st.editingText
  {
    st.(todos := LoadedTodos(st.storage, codec, now), isInitialized := true)
  }

  /** The save effect: nothing before initialisation; afterwards the whole
      list is written under the one key, overwriting the old value and
      leaving every other key alone. Only storage changes. */
  function SaveEffect(st: State, codec: Codec): (r: State)
    ensures r.(storage := st.storage) == st
    ensures !st.isInitialized ==> r.storage == st.storage
    ensures st.isInitialized ==> Synced(r, codec)
    ensures forall k :: k != StorageKey ==>
      (k in r.storage <==> k in st.storage) && (k in st.storage ==> r.storage[k] == st.storage[k])
  {
    if st.isInitialized then
      st.(storage := st.storage[StorageKey := codec.stringify(st.todos)])
    else
      st
  }

  /** Mounting. Effects run in declaration order, so on the first commit
      the load effect runs first. The save effect of that same commit reads
      the first render's `isInitialized`, which is still false, so it writes
      nothing (`FirstCommitSaveWritesNothing`). The state updates of the
      load effect cause a re-render, whose save effect writes the loaded
      list. The list loaded is the one storage held BEFORE mounting:
      nothing is written before it is read. */
  function Mount(storage: Storage, codec: Codec, now: int): (r: State)
    ensures r.isInitialized && Synced(r, codec)
    ensures r.todos == LoadedTodos(storage, codec, now)
    ensures r.newTodo == "" && NotEditing(r)
  {
    SaveEffect(Load(Initial(storage), codec, now), codec)
  }

  /** The save effect of the first commit sees the first render's state,
      in which `isInitialized` is false, and leaves storage as it was. */
  lemma FirstCommitSaveWritesNothing(storage: Storage, codec: Codec)
    ensures SaveEffect(Initial(storage), codec).storage == storage
  {
  }

  // ---------------------------------------------------------------------
  // The handlers

  /** `addTodo` on the current draft: with a blank draft nothing happens;
      otherwise the new task is added and the draft cleared. The id is the
      decimal rendering of the clock reading `idClock`. */
  function SubmitNewTodo(st: State, idClock: nat, createdAt: int): (r: State)
    ensures IsBlank(st.newTodo) ==> r == st
    ensures !IsBlank(st.newTodo) ==>
      && r.todos == AddTodo(st.todos, st.newTodo, ClockId(idClock), createdAt)
      && |r.todos| == |st.todos| + 1
      && r.newTodo == ""
      && r.(todos := st.todos, newTodo := st.newTodo) == st
  {
    if Trim(st.newTodo) != [] then
      st.(todos := AddTodo(st.todos, st.newTodo, ClockId(idClock), createdAt), newTodo := "")
    else
      st
  }

  /** `startEdit`: selects the task's id and copies its title into the
      editing buffer; the list is untouched. */
  function StartEdit(st: State, todo: Todo): (r: State)
    ensures r.editingId == Some(todo.id) && r.editingText == todo.title
    ensures r.(editingId := st.editingId, editingText := st.editingText) == st
  {
    st.(editingId := Some(todo.id), editingText := todo.title)
  }

  /** `saveEdit`: a buffer whose trim is non-empty renames the selected
      task(s) to that trim, a blank one changes no title; either way the
      selection ends. */
  function SaveEdit(st: State): (r: State)
    ensures NotEditing(r)
    ensures IsBlank(st.editingText) ==> r.todos == st.todos
    ensures !IsBlank(st.editingText) ==>
      r.todos == RenameTodos(st.todos, st.editingId, Trim(st.editingText))
    ensures r.newTodo == st.newTodo && r.isInitialized == st.isInitialized && r.storage == st.storage
  {
    var title := Trim(st.editingText);
    var todos := if title != [] then RenameTodos(st.todos, st.editingId, title) else st.todos;
    st.(todos := todos, editingId := None, editingText := "")
  }

  /** `cancelEdit`: ends the selection and touches nothing else. */
  function CancelEdit(st: State): (r: State)
    ensures NotEditing(r)
    ensures r.(editingId := st.editingId, editingText := st.editingText) == st
  {
    st.(editingId := None, editingText := "")
  }

  // ---------------------------------------------------------------------
  // Actions and runs

  /** The user actions the rendered page offers: typing in either input,
      and the Add, Delete, checkbox, Edit, Save, Cancel and Clear Completed
      buttons. `Add` carries the clock readings `addTodo` takes. */
  datatype Action =
    | EnterNewTodo(text: string)
    | Add(idClock: nat, createdAt: int)
    | Delete(id: string)
    | Toggle(id: string)
    | Edit(todo: Todo)
    | EnterEditingText(text: string)
    | Save
    | Cancel
    | ClearDone

  /** The handler of an action, before any effect runs: typing replaces
      the draft or the editing buffer, delete, toggle and clear completed
      replace the list, and the other actions go to their handlers above. */
  function Handle(st: State, a: Action): (r: State)
    ensures a.EnterNewTodo? ==> r == st.(newTodo := a.text)
    ensures a.EnterEditingText? ==> r == st.(editingText := a.text)
    ensures a.Add? ==> r == SubmitNewTodo(st, a.idClock, a.createdAt)
    ensures a.Delete? ==> r == st.(todos := DeleteTodo(st.todos, a.id))
    ensures a.Toggle? ==> r == st.(todos := ToggleComplete(st.todos, a.id))
    ensures a.Edit? ==> r == StartEdit(st, a.todo)
    ensures a.Save? ==> r == SaveEdit(st)
    ensures a.Cancel? ==> r == CancelEdit(st)
    ensures a.ClearDone? ==> r == st.(todos := ClearCompleted(st.todos))
    ensures r.isInitialized == st.isInitialized && r.storage == st.storage
  {
    match a
    case EnterNewTodo(text) => st.(newTodo := text)
    case Add(idClock, createdAt) => SubmitNewTodo(st, idClock, createdAt)
    case Delete(id) => st.(todos := DeleteTodo(st.todos, id))
    case Toggle(id) => st.(todos := ToggleComplete(st.todos, id))
    case Edit(todo) => StartEdit(st, todo)
    case EnterEditingText(text) => st.(editingText := text)
    case Save => SaveEdit(st)
    case Cancel => CancelEdit(st)
    case ClearDone => st.(todos := ClearCompleted(st.todos))
  }

  /** Whether the handler calls `setTodos`. A new list value is what re-runs
      the save effect, whose dependencies are the list and the flag; a
      handler that does not call it leaves the list as it was. */
  function SetsTodos(st: State, a: Action): (r: bool)
    ensures !r ==> Handle(st, a).todos == st.todos
    ensures r <==> a.Delete? || a.Toggle? || a.ClearDone?
                   || (a.Add? && !IsBlank(st.newTodo)) || (a.Save? && !IsBlank(st.editingText))
  {
    match a
    case Add(_, _) => !IsBlank(st.newTodo)
    case Delete(_) => true
    case Toggle(_) => true
    case Save => !IsBlank(st.editingText)
    case ClearDone => true
    case _ => false
  }

  /** One action: its handler, then the save effect if the list was set.
      No action sets `isInitialized` or writes storage before the load
      effect has run, and once storage is in step with the list it stays
      so. */
  function Step(st: State, a: Action, codec: Codec): (r: State)
    ensures r.isInitialized == st.isInitialized
    ensures !st.isInitialized ==> r.storage == st.storage
    ensures Synced(st, codec) ==> Synced(r, codec)
    ensures !SetsTodos(st, a) ==> r.todos == st.todos
  {
    var h := Handle(st, a);
    if SetsTodos(st, a) then SaveEffect(h, codec) else h
  }

  /** A sequence of actions, applied in order. */
  function Run(st: State, actions: seq<Action>, codec: Codec): (r: State)
    ensures r.isInitialized == st.isInitialized
    ensures !st.isInitialized ==> r.storage == st.storage
    ensures Synced(st, codec) ==> Synced(r, codec)
    decreases |actions|
  {
    if actions == [] then st else Run(Step(st, actions[0], codec), actions[1..], codec)
  }

  // ---------------------------------------------------------------------
  // Properties of the state machine

  /** Reloading the page gives back the list held when storage was last in
      step with it (which, by `Mount` and `Run`, is always the case after
      mounting), provided the codec round-trips that list. */
  lemma ReloadRestoresList(st: State, codec: Codec, later: int)
    requires st.isInitialized && Synced(st, codec) && RoundTrips(codec, st.todos)
    ensures Mount(st.storage, codec, later).todos == st.todos
  {
  }

  /** A whole session: mount over any storage, run any actions, reload;
      the reloaded list is the one the session ended with, whenever the
      codec round-trips it. */
  lemma SessionSurvivesReload(storage: Storage, actions: seq<Action>, codec: Codec, now: int, later: int)
    ensures var st := Run(Mount(storage, codec, now), actions, codec);
            RoundTrips(codec, st.todos) ==> Mount(st.storage, codec, later).todos == st.todos
  {
  }

  /** Starting an edit, typing, and cancelling leaves the list and storage
      as they were and no edit selected. */
  lemma CancelledEditChangesNothing(st: State, todo: Todo, text: string, codec: Codec)
    requires NotEditing(st)
    ensures var r := Run(st, [Edit(todo), EnterEditingText(text), Cancel], codec);
            r == st
  {
    var s1 := Step(st, Edit(todo), codec);
    var s2 := Step(s1, EnterEditingText(text), codec);
    var s3 := Step(s2, Cancel, codec);
    assert [Edit(todo), EnterEditingText(text), Cancel][1..] == [EnterEditingText(text), Cancel];
    assert [EnterEditingText(text), Cancel][1..] == [Cancel];
    assert Run(s2, [Cancel], codec) == s3 by {
      assert [Cancel][1..] == [];
    }
    assert s3 == st;
  }

  /** Saving a blank edit buffer keeps every title and ends the selection. */
  lemma BlankSaveKeepsTitles(st: State, codec: Codec)
    requires IsBlank(st.editingText)
    ensures var r := Step(st, Save, codec);
            r.todos == st.todos && r.storage == st.storage && NotEditing(r)
  {
  }

  /** Every action keeps titles non-empty and trimmed. */
  lemma StepKeepsWellFormed(st: State, a: Action, codec: Codec)
    requires WellFormed(st.todos)
    ensures WellFormed(Step(st, a, codec).todos)
  {
    match a
    case Add(idClock, createdAt) =>
      AddKeepsWellFormed(st.todos, st.newTodo, ClockId(idClock), createdAt);
    case Save =>
      var title := Trim(st.editingText);
      if title != [] {
        UpdatesKeepWellFormed(st.todos, "", st.editingId, title);
      }
    case Delete(id) =>
      RemovalsKeepWellFormed(st.todos, id);
    case Toggle(id) =>
      UpdatesKeepWellFormed(st.todos, id, None, "x");
    case ClearDone =>
      RemovalsKeepWellFormed(st.todos, "");
    case _ =>
  }

  /** Every action keeps ids unique, provided an add's clock reading does
      not render to an id already in the list. */
  lemma StepKeepsUniqueIds(st: State, a: Action, codec: Codec)
    requires UniqueIds(st.todos)
    requires a.Add? ==> !HasId(st.todos, ClockId(a.idClock))
    ensures UniqueIds(Step(st, a, codec).todos)
  {
    match a
    case Add(idClock, createdAt) =>
      AddFreshKeepsUniqueIds(st.todos, st.newTodo, ClockId(idClock), createdAt);
    case Save =>
      EditsKeepUniqueIds(st.todos, "", st.editingId, Trim(st.editingText));
    case Delete(id) =>
      EditsKeepUniqueIds(st.todos, id, None, "");
    case Toggle(id) =>
      EditsKeepUniqueIds(st.todos, id, None, "");
    case ClearDone =>
      EditsKeepUniqueIds(st.todos, "", None, "");
    case _ =>
  }

}
