/**
 * The replicated entities (a Bento and its todo items) and the pure list
 * edits the store performs on a Bento's todo list.
 */
module Todo {
  import opened Wrappers

  /** TodoListItem: identity is `uuid`; the two dates are milliseconds. */
  datatype TodoItem = TodoItem(
    uuid: string,
    title: string,
    description: string,
    hasImage: bool,
    done: bool,
    creDateMillis: int,
    modDateMillis: int,
    creContactId: string,
    modContactId: string)

  /** Bento: identity is `uuid`; the order of `todoList` is replicated state. */
  datatype Bento = Bento(
    uuid: string,
    name: string,
    creContactId: string,
    todoList: seq<TodoItem>)

  /** A freshly constructed Bento before any field is filled in. */
  const EmptyBento := Bento("", "", "", [])

  // ---------------------------------------------------------------
  // ArrayList primitives
  // ---------------------------------------------------------------

  /** ArrayList.add(i, x): `x` lands at `i`, later elements shift right. */
  function InsertAt<T>(s: seq<T>, i: nat, x: T): (r: seq<T>)
    requires i <= |s|
    ensures |r| == |s| + 1 && r[i] == x
    ensures forall j :: 0 <= j < i ==> r[j] == s[j]
    ensures forall j :: i < j < |r| ==> r[j] == s[j - 1]
  {
    s[..i] + [x] + s[i..]
  }

  /** ArrayList.remove(i): element `i` goes, later elements shift left. */
  function RemoveAt<T>(s: seq<T>, i: nat): (r: seq<T>)
    requires i < |s|
    ensures |r| == |s| - 1
    ensures forall j :: 0 <= j < i ==> r[j] == s[j]
    ensures forall j :: i <= j < |r| ==> r[j] == s[j + 1]
  {
    s[..i] + s[i + 1..]
  }

  lemma RemoveInserted<T>(s: seq<T>, i: nat, x: T)
    requires i <= |s|
    ensures RemoveAt(InsertAt(s, i, x), i) == s
  {
    var r := RemoveAt(InsertAt(s, i, x), i);
    assert |r| == |s|;
    forall j | 0 <= j < |s| ensures r[j] == s[j] {
    }
  }

  lemma InsertRemoved<T>(s: seq<T>, i: nat)
    requires i < |s|
    ensures InsertAt(RemoveAt(s, i), i, s[i]) == s
  {
    var r := InsertAt(RemoveAt(s, i), i, s[i]);
    assert |r| == |s|;
    forall j | 0 <= j < |s| ensures r[j] == s[j] {
    }
  }

  // ---------------------------------------------------------------
  // Lookup by uuid
  // ---------------------------------------------------------------

  /** The index of the first item whose uuid is `uuid`, if any. */
  function FirstIndexOfUuid(s: seq<TodoItem>, uuid: string): (r: Option<nat>)
    ensures r.Some? ==> r.value < |s| && s[r.value].uuid == uuid
    ensures r.Some? ==> forall j :: 0 <= j < r.value ==> s[j].uuid != uuid
    ensures r.None? <==> forall j :: 0 <= j < |s| ==> s[j].uuid != uuid
  {
    if s == [] then None
    else if s[0].uuid == uuid then Some(0)
    else
      match FirstIndexOfUuid(s[1..], uuid)
      case None => None
      case Some(k) => Some(k + 1)
  }

  /** The list after replacing the first item with `u`'s uuid by `u`. */
  function ReplaceFirst(s: seq<TodoItem>, u: TodoItem): seq<TodoItem> {
    match FirstIndexOfUuid(s, u.uuid)
    case Some(i) => s[i := u]
    case None => s
  }

  lemma {:induction false} ReplaceFirstEffect(s: seq<TodoItem>, u: TodoItem)
    ensures |ReplaceFirst(s, u)| == |s|
    ensures (exists i :: 0 <= i < |s| && s[i].uuid == u.uuid) ==>
      exists i :: 0 <= i < |s| && s[i].uuid == u.uuid &&
        (forall j :: 0 <= j < i ==> s[j].uuid != u.uuid) &&
        ReplaceFirst(s, u)[i] == u &&
        (forall j :: 0 <= j < |s| && j != i ==> ReplaceFirst(s, u)[j] == s[j])
    ensures (forall i :: 0 <= i < |s| ==> s[i].uuid != u.uuid) ==> ReplaceFirst(s, u) == s
  {
    match FirstIndexOfUuid(s, u.uuid)
    case None =>
    case Some(i) =>
      assert ReplaceFirst(s, u) == s[i := u];
  }

  // ---------------------------------------------------------------
  // Moving one item
  // ---------------------------------------------------------------

  /**
   * The reference meaning of a drag-and-drop: take the item at `from` out
   * and put it back so that it ends up at index `to`.
   */
  function Move<T>(s: seq<T>, from: nat, to: nat): (r: seq<T>)
    requires from < |s| && to < |s|
  {
    InsertAt(RemoveAt(s, from), to, s[from])
  }

  lemma MovePlacesItem<T>(s: seq<T>, from: nat, to: nat)
    requires from < |s| && to < |s|
    ensures |Move(s, from, to)| == |s|
    ensures Move(s, from, to)[to] == s[from]
    ensures RemoveAt(Move(s, from, to), to) == RemoveAt(s, from)
  {
    RemoveInserted(RemoveAt(s, from), to, s[from]);
  }

  lemma MoveToSelf<T>(s: seq<T>, i: nat)
    requires i < |s|
    ensures Move(s, i, i) == s
  {
    InsertRemoved(s, i);
  }

  lemma MoveBack<T>(s: seq<T>, i: nat, j: nat)
    requires i < |s| && j < |s|
    ensures Move(Move(s, i, j), j, i) == s
  {
    var m := Move(s, i, j);
    MovePlacesItem(s, i, j);
    calc {
      Move(m, j, i);
      InsertAt(RemoveAt(m, j), i, m[j]);
      InsertAt(RemoveAt(s, i), i, s[i]);
      { InsertRemoved(s, i); }
      s;
    }
  }

  /**
   * What sortTodoList does for from < to: insert a second copy just after
   * `to`, then delete the original.
   */
  lemma AddAfterThenRemoveIsMove<T>(s: seq<T>, from: nat, to: nat)
    requires from < to < |s|
    ensures RemoveAt(InsertAt(s, to + 1, s[from]), from) == Move(s, from, to)
  {
    var a := RemoveAt(InsertAt(s, to + 1, s[from]), from);
    var b := Move(s, from, to);
    assert |a| == |b|;
    forall k | 0 <= k < |a| ensures a[k] == b[k] {
    }
  }

  // ---------------------------------------------------------------
  // Clearing completed items
  // ---------------------------------------------------------------

  /** The items that are not done, in their original order. */
  function FilterUndone(s: seq<TodoItem>): (r: seq<TodoItem>)
    ensures |r| <= |s|
  {
    if s == [] then []
    else (if s[0].done then [] else [s[0]]) + FilterUndone(s[1..])
  }

  /** How many items are done. */
  function CountDone(s: seq<TodoItem>): nat {
    if s == [] then 0 else (if s[0].done then 1 else 0) + CountDone(s[1..])
  }

  lemma {:induction false} FilterUndoneKeepsExactlyUndone(s: seq<TodoItem>)
    ensures forall x :: x in FilterUndone(s) ==> x in s && !x.done
    ensures forall x :: x in s && !x.done ==> x in FilterUndone(s)
    ensures |FilterUndone(s)| == |s| - CountDone(s)
  {
    if s != [] {
      FilterUndoneKeepsExactlyUndone(s[1..]);
      assert s == [s[0]] + s[1..];
    }
  }

  lemma {:induction false} FilterUndoneShrinksIffSomeDone(s: seq<TodoItem>)
    ensures |FilterUndone(s)| < |s| <==> exists i :: 0 <= i < |s| && s[i].done
  {
    if s != [] {
      FilterUndoneShrinksIffSomeDone(s[1..]);
      if !s[0].done && exists i :: 0 <= i < |s| && s[i].done {
        var i :| 0 <= i < |s| && s[i].done;
        assert s[1..][i - 1].done;
      }
      if exists i :: 0 <= i < |s[1..]| && s[1..][i].done {
        var i :| 0 <= i < |s[1..]| && s[1..][i].done;
        assert s[i + 1].done;
      }
    }
  }

  lemma {:induction false} FilterUndoneIdempotent(s: seq<TodoItem>)
    ensures FilterUndone(FilterUndone(s)) == FilterUndone(s)
  {
    if s != [] {
      FilterUndoneIdempotent(s[1..]);
      var t := FilterUndone(s[1..]);
      if s[0].done {
        assert FilterUndone(s) == t;
      } else {
        var u := [s[0]] + t;
        assert FilterUndone(s) == u;
        assert u[1..] == t;
        assert FilterUndone(u) == [s[0]] + FilterUndone(t);
      }
    }
  }
}
