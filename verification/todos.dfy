/**
 The to-do list itself: the `Todo` record, the five pure operations the
 app's handlers apply to the list (add, delete, toggle, rename, clear
 completed), the seed list, and the clock-derived ids.

 Ids are not assumed unique: toggle, rename and delete act on EVERY
 element whose id matches, exactly as `map` and `filter` do.
 */
module Todos {

  import opened Wrappers
  import opened Text
  import opened Seqs

  datatype Todo = Todo(id: string, title: string, isCompleted: bool, createdAt: int)

  /** The fields fixed at creation are the same. */
  predicate SameIdentity(a: Todo, b: Todo) {
    a.id == b.id && a.createdAt == b.createdAt
  }

  /** Every title is non-empty and trimmed, as add and rename produce them. */
  predicate WellFormed(todos: seq<Todo>) {
    forall i :: 0 <= i < |todos| ==> todos[i].title != [] && IsTrimmed(todos[i].title)
  }

  /** No two elements share an id. */
  predicate UniqueIds(todos: seq<Todo>) {
    forall i, j :: 0 <= i < j < |todos| ==> todos[i].id != todos[j].id
  }

  predicate HasId(todos: seq<Todo>, id: string) {
    exists i :: 0 <= i < |todos| && todos[i].id == id
  }

  // ---------------------------------------------------------------------
  // Ids from the clock

  function Digit(d: nat): (c: char)
    requires d < 10
    ensures '0' <= c <= '9'
  {
    ('0' as int + d) as char
  }

  /** `n.toString()` for a millisecond clock reading `n`: its decimal digits,
      without leading zeros. */
  function ClockId(n: nat): (r: string)
    ensures 1 <= |r| && (n >= 10 ==> 2 <= |r|)
    ensures forall i :: 0 <= i < |r| ==> '0' <= r[i] <= '9'
    ensures r[0] == '0' ==> n == 0
  {
    if n < 10 then [Digit(n)] else ClockId(n / 10) + [Digit(n % 10)]
  }

  /** The number a string of decimal digits denotes. */
  function DecimalValue(s: string): nat
    requires forall i :: 0 <= i < |s| ==> '0' <= s[i] <= '9'
  {
    if s == [] then 0
    else DecimalValue(s[..|s| - 1]) * 10 + (s[|s| - 1] as int - '0' as int)
  }

  /** Reading the id back as a decimal number gives the clock reading. */
  lemma {:induction false} ClockIdRoundTrip(n: nat)
    ensures DecimalValue(ClockId(n)) == n
  {
    if n >= 10 {
      var r := ClockId(n);
      assert r[..|r| - 1] == ClockId(n / 10);
      ClockIdRoundTrip(n / 10);
    }
  }

  /** Distinct clock readings give distinct ids, and equal readings give
      equal ids: the id is unique exactly when the reading is. */
  lemma ClockIdInjective(a: nat, b: nat)
    ensures ClockId(a) == ClockId(b) <==> a == b
  {
    ClockIdRoundTrip(a);
    ClockIdRoundTrip(b);
  }

  // ---------------------------------------------------------------------
  // The list operations

  /** `addTodo`: a text whose trim is empty adds nothing; otherwise a new
      open task titled with the trimmed text is put at the front and the
      old list follows unchanged. */
  function AddTodo(todos: seq<Todo>, text: string, id: string, createdAt: int): (r: seq<Todo>)
    ensures IsBlank(text) ==> r == todos
    ensures !IsBlank(text) ==> |r| == |todos| + 1 && r[1..] == todos
    ensures !IsBlank(text) ==> r[0].id == id && r[0].createdAt == createdAt && !r[0].isCompleted
    ensures !IsBlank(text) ==> r[0].title == Trim(text) && r[0].title != [] && IsTrimmed(r[0].title)
  {
    var title := Trim(text);
    if title == [] then todos else [Todo(id, title, false, createdAt)] + todos
  }

  function OtherThan(id: string): Todo -> bool {
    (t: Todo) => t.id != id
  }

  /** `deleteTodo`: every element with the id goes, every other element
      stays, with its multiplicity and in its relative order. */
  function DeleteTodo(todos: seq<Todo>, id: string): (r: seq<Todo>)
    ensures IsSubsequence(r, todos)
    ensures forall t :: multiset(r)[t] == if t.id == id then 0 else multiset(todos)[t]
    ensures !HasId(r, id)
  {
    Filter(todos, OtherThan(id))
  }

  /** `toggleComplete`: same length and order; each element whose id
      matches has its completion flag negated, and nothing else changes. */
  function ToggleComplete(todos: seq<Todo>, id: string): (r: seq<Todo>)
    ensures |r| == |todos|
    ensures forall i :: 0 <= i < |r| ==>
      SameIdentity(r[i], todos[i]) && r[i].title == todos[i].title
    ensures forall i :: 0 <= i < |r| ==>
      r[i].isCompleted == (todos[i].isCompleted != (todos[i].id == id))
  {
    seq(|todos|, i requires 0 <= i < |todos| =>
      var t := todos[i];
      if t.id == id then t.(isCompleted := !t.isCompleted) else t)
  }

  /** The `map` inside `saveEdit`: every element whose id equals the
      editing id takes the new title; nothing else changes. With no editing
      id (`null`), no element matches. */
  function RenameTodos(todos: seq<Todo>, target: Option<string>, title: string): (r: seq<Todo>)
    ensures |r| == |todos|
    ensures forall i :: 0 <= i < |r| ==>
      SameIdentity(r[i], todos[i]) && r[i].isCompleted == todos[i].isCompleted
    ensures forall i :: 0 <= i < |r| ==>
      r[i].title == if target == Some(todos[i].id) then title else todos[i].title
  {
    seq(|todos|, i requires 0 <= i < |todos| =>
      var t := todos[i];
      if target == Some(t.id) then t.(title := title) else t)
  }

  predicate IsOpen(t: Todo) {
    !t.isCompleted
  }

  /** "Clear Completed": exactly the open elements remain, each as often as
      before and in their relative order. */
  function ClearCompleted(todos: seq<Todo>): (r: seq<Todo>)
    ensures IsSubsequence(r, todos)
    ensures forall t :: multiset(r)[t] == if t.isCompleted then 0 else multiset(todos)[t]
    ensures forall i :: 0 <= i < |r| ==> !r[i].isCompleted
  {
    Filter(todos, IsOpen)
  }

  // ---------------------------------------------------------------------
  // The seed list

  /** The three sample tasks loaded on first run or after a corrupt save;
      `now` is the clock reading the timestamps are taken back from. */
  function Seed(now: int): (r: seq<Todo>)
    ensures |r| == 3
    ensures r[0].id == "1" && r[1].id == "2" && r[2].id == "3"
    ensures !r[0].isCompleted && r[1].isCompleted && !r[2].isCompleted
    ensures now > r[0].createdAt > r[1].createdAt > r[2].createdAt
    ensures WellFormed(r) && UniqueIds(r)
  {
    [ Todo("1", "یادگیری TypeScript", false, now - 20000),
      Todo("2", "راه\U{200C}اندازی Tailwind", true, now - 120000),
      Todo("3", "ساخت UI اولیه To-Do", false, now - 3600000) ]
  }

  // ---------------------------------------------------------------------
  // Properties of the operations

  /** Deleting an id that is not there changes nothing. */
  lemma DeleteAbsentIsNoOp(todos: seq<Todo>, id: string)
    requires !HasId(todos, id)
    ensures DeleteTodo(todos, id) == todos
  {
    FilterKeepsAccepted(todos, OtherThan(id));
  }

  /** Deleting the same id twice is deleting it once. */
  lemma DeleteIdempotent(todos: seq<Todo>, id: string)
    ensures DeleteTodo(DeleteTodo(todos, id), id) == DeleteTodo(todos, id)
  {
    FilterIdempotent(todos, OtherThan(id));
  }

  /** Toggling the same id twice restores the list. */
  lemma ToggleInvolution(todos: seq<Todo>, id: string)
    ensures ToggleComplete(ToggleComplete(todos, id), id) == todos
  {
  }

  /** Renaming with no editing id changes nothing. */
  lemma RenameNoTargetIsNoOp(todos: seq<Todo>, title: string)
    ensures RenameTodos(todos, None, title) == todos
  {
  }

  /** Renaming twice to the same title is renaming once. */
  lemma RenameIdempotent(todos: seq<Todo>, target: Option<string>, title: string)
    ensures RenameTodos(RenameTodos(todos, target, title), target, title)
         == RenameTodos(todos, target, title)
  {
  }

  /** Clearing completed tasks twice is clearing them once. */
  lemma ClearCompletedIdempotent(todos: seq<Todo>)
    ensures ClearCompleted(ClearCompleted(todos)) == ClearCompleted(todos)
  {
    FilterIdempotent(todos, IsOpen);
  }

  /** With nothing completed, clearing changes nothing. */
  lemma ClearCompletedNoneDone(todos: seq<Todo>)
    requires forall i :: 0 <= i < |todos| ==> !todos[i].isCompleted
    ensures ClearCompleted(todos) == todos
  {
    FilterKeepsAccepted(todos, IsOpen);
  }

  /** Removing elements keeps ids unique. */
  lemma {:induction false} SubsequenceKeepsUniqueIds(r: seq<Todo>, s: seq<Todo>)
    requires IsSubsequence(r, s) && UniqueIds(s)
    ensures UniqueIds(r)
    decreases |s|
  {
    if r != [] {
      if r[0] == s[0] {
        SubsequenceKeepsUniqueIds(r[1..], s[1..]);
        SubsequenceMembers(r[1..], s[1..]);
        assert forall j :: 1 <= j < |r| ==> r[j] == r[1..][j - 1];
        forall j | 1 <= j < |r|
          ensures r[0].id != r[j].id
        {
          var k :| 0 <= k < |s[1..]| && s[1..][k] == r[j];
          assert s[k + 1] == r[j];
        }
      } else {
        assert UniqueIds(s[1..]) by {
          assert forall i :: 0 <= i < |s[1..]| ==> s[1..][i] == s[i + 1];
        }
        SubsequenceKeepsUniqueIds(r, s[1..]);
      }
    }
  }

  /** Adding with an id not yet in the list keeps ids unique. */
  lemma AddFreshKeepsUniqueIds(todos: seq<Todo>, text: string, id: string, createdAt: int)
    requires UniqueIds(todos) && !HasId(todos, id)
    ensures UniqueIds(AddTodo(todos, text, id, createdAt))
  {
  }

  /** Delete, toggle, rename and clear never introduce a duplicate id. */
  lemma EditsKeepUniqueIds(todos: seq<Todo>, id: string, target: Option<string>, title: string)
    requires UniqueIds(todos)
    ensures UniqueIds(DeleteTodo(todos, id))
    ensures UniqueIds(ToggleComplete(todos, id))
    ensures UniqueIds(RenameTodos(todos, target, title))
    ensures UniqueIds(ClearCompleted(todos))
  {
    SubsequenceKeepsUniqueIds(DeleteTodo(todos, id), todos);
    SubsequenceKeepsUniqueIds(ClearCompleted(todos), todos);
  }

  /** Adding keeps titles non-empty and trimmed. */
  lemma AddKeepsWellFormed(todos: seq<Todo>, text: string, id: string, createdAt: int)
    requires WellFormed(todos)
    ensures WellFormed(AddTodo(todos, text, id, createdAt))
  {
  }

  /** Removing elements keeps titles non-empty and trimmed. */
  lemma SubsequenceKeepsWellFormed(r: seq<Todo>, s: seq<Todo>)
    requires IsSubsequence(r, s) && WellFormed(s)
    ensures WellFormed(r)
  {
  }

  /** Delete and clear completed keep titles non-empty and trimmed. */
  lemma RemovalsKeepWellFormed(todos: seq<Todo>, id: string)
    requires WellFormed(todos)
    ensures WellFormed(DeleteTodo(todos, id))
    ensures WellFormed(ClearCompleted(todos))
  {
  }

  /** Toggling keeps titles non-empty and trimmed, and so does a rename to
      a trimmed non-empty title. */
  lemma UpdatesKeepWellFormed(todos: seq<Todo>, id: string, target: Option<string>, title: string)
    requires WellFormed(todos)
    requires title != [] && IsTrimmed(title)
    ensures WellFormed(ToggleComplete(todos, id))
    ensures WellFormed(RenameTodos(todos, target, title))
  {
  }

  /** A head element carrying the deleted id simply disappears. */
  lemma DeleteDropsMatchingHead(t: Todo, todos: seq<Todo>)
    ensures DeleteTodo([t] + todos, t.id) == DeleteTodo(todos, t.id)
  {
  }

  /** Deleting the id just added, when no other task had it, undoes the
      add. */
  lemma DeleteUndoesFreshAdd(todos: seq<Todo>, text: string, id: string, createdAt: int)
    requires !HasId(todos, id)
    ensures DeleteTodo(AddTodo(todos, text, id, createdAt), id) == todos
  {
    DeleteAbsentIsNoOp(todos, id);
    if !IsBlank(text) {
      var r := AddTodo(todos, text, id, createdAt);
      assert r == [r[0]] + todos;
      DeleteDropsMatchingHead(r[0], todos);
    }
  }

  /** Two adds in the same clock millisecond get the same id, so the list
      no longer has unique ids and a single delete removes both. */
  lemma SameTickAddsCollide(todos: seq<Todo>, first: string, second: string,
                            tick: nat, created1: int, created2: int)
    requires !IsBlank(first) && !IsBlank(second)
    ensures var r := AddTodo(AddTodo(todos, first, ClockId(tick), created1),
                             second, ClockId(tick), created2);
            && r[0].id == r[1].id
            && !UniqueIds(r)
            && DeleteTodo(r, ClockId(tick)) == DeleteTodo(todos, ClockId(tick))
  {
    var r1 := AddTodo(todos, first, ClockId(tick), created1);
    var r := AddTodo(r1, second, ClockId(tick), created2);
    assert r == [r[0]] + r1 && r1 == [r1[0]] + todos;
    DeleteDropsMatchingHead(r[0], r1);
    DeleteDropsMatchingHead(r1[0], todos);
  }

}
