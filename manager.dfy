/**
 * BentoManager: the replica of the active Bento, the catalog, the member
 * cache, and the entries this replica publishes to the feed.
 */
module Manager {
  import opened Wrappers
  import opened Json
  import opened Todo
  import opened StateCodec
  import opened Feed
  import opened Reconcile
  import opened Catalog

  /** A root entry (type todobento) or a state update (type appstate). */
  datatype EntryKind = RootEntry | StateUpdate

  /**
   * A published entry: its JSON document, the base64 thumbnail carried
   * beside it, and the int key a state update is posted with.
   */
  datatype Entry = Entry(kind: EntryKind, doc: Doc, thumb: Option<string>, intKey: Option<Int32>)

  /** The document pushUpdate builds for Bento `b`. */
  function Published(v: int, b: Bento, todoUuid: Option<string>, data: Option<string>): (r: Doc)
    ensures STATE in r && r[STATE] == JObj(EncodeState(v, b))
    ensures TODO_IMAGE in r <==> todoUuid.Some? && data.Some?
    ensures TODO_IMAGE in r ==> r[TODO_IMAGE] == JObj(map[TODO_IMAGE_UUID := JStr(todoUuid.value)])
    ensures r.Keys <= {STATE, TODO_IMAGE}
  {
    var base := map[STATE := JObj(EncodeState(v, b))];
    if todoUuid.Some? && data.Some? then
      base[TODO_IMAGE := JObj(map[TODO_IMAGE_UUID := JStr(todoUuid.value)])]
    else
      base
  }

  /** The thumbnail attached: the data, only when a uuid comes with it. */
  function Thumb(todoUuid: Option<string>, data: Option<string>): (r: Option<string>)
    ensures r.Some? <==> todoUuid.Some? && data.Some?
    ensures r.Some? ==> r == data
  {
    if todoUuid.Some? && data.Some? then data else None
  }

  /**
   * Whatever image travels with it, an entry published for `b` makes every
   * replica whose active Bento has `b`'s uuid, the author included, adopt
   * exactly `b` when the entry comes back through the observer.
   */
  lemma PublishedEntryReapplies(v: int, active: Bento, b: Bento, todoUuid: Option<string>,
                                data: Option<string>, intKey: Option<Int32>)
    requires active.uuid == b.uuid
    ensures React(Some(active), Some(Published(v, b, todoUuid, data)), intKey) == Apply(b, KeyOrZero(intKey))
  {
    StateRoundTrip(v, b);
  }

  class BentoManager {
    /** mBento: the active Bento, if any. */
    var bento: Option<Bento>
    /** mLastInt: the key of the last state seen or posted. */
    var lastInt: Int32
    /** mVersionCode: written into every state document. */
    const versionCode: int
    /** mBentoList: the catalog. */
    var bentoList: seq<CatalogEntry>
    /** mMemberNameCache: null until the first fetch. */
    var memberNameCache: Option<map<int, seq<string>>>
    /** Refresh notifications handed to the listeners. */
    var refreshes: nat
    /** Entries handed to the feed, oldest first. */
    var outbox: seq<Entry>

    constructor (versionCode: int)
      ensures this.versionCode == versionCode
      ensures bento == None && lastInt == 0 && bentoList == [] && memberNameCache == None
      ensures refreshes == 0 && outbox == []
    {
      this.versionCode := versionCode;
      bento := None;
      lastInt := 0;
      bentoList := [];
      memberNameCache := None;
      refreshes := 0;
      outbox := [];
    }

    // -------------------------------------------------------------
    // Reads
    // -------------------------------------------------------------

    /** getTodoListCount: the number of items, 0 with no active Bento. */
    function GetTodoListCount(): (n: nat)
      reads this
      ensures n == 0 <==> bento.None? || bento.value.todoList == []
      ensures bento.Some? ==> n == |bento.value.todoList|
    {
      if bento.Some? then |bento.value.todoList| else 0
    }

    /** getTodoListItem(uuid): the first item with that uuid, or null. */
    method GetTodoListItem(uuid: string) returns (r: Option<TodoItem>)
      requires bento.Some?
      ensures r.None? <==> FirstIndexOfUuid(bento.value.todoList, uuid).None?
      ensures r.Some? ==> r.value == bento.value.todoList[FirstIndexOfUuid(bento.value.todoList, uuid).value]
    {
      var list := bento.value.todoList;
      var i := 0;
      while i < |list|
        invariant 0 <= i <= |list|
        invariant forall j :: 0 <= j < i ==> list[j].uuid != uuid
      {
        if list[i].uuid == uuid {
          return Some(list[i]);
        }
        i := i + 1;
      }
      return None;
    }

    // -------------------------------------------------------------
    // Publishing
    // -------------------------------------------------------------

    /**
     * pushUpdate: serialises the active Bento and publishes it. A first
     * write inserts a root entry and rebinds to it; any other write posts a
     * state update under the next key.
     */
    method PushUpdate(todoUuid: Option<string>, data: Option<string>, first: bool)
      requires bento.Some?
      modifies this`bento, this`lastInt, this`outbox
      ensures bento == old(bento)
      ensures first ==> (lastInt == 0 &&
        outbox == old(outbox) + [Entry(RootEntry, Published(versionCode, bento.value, todoUuid, data),
                                       Thumb(todoUuid, data), None)])
      ensures !first ==> (lastInt == NextKey(old(lastInt)) &&
        outbox == old(outbox) + [Entry(StateUpdate, Published(versionCode, bento.value, todoUuid, data),
                                       Thumb(todoUuid, data), Some(lastInt))])
    {
      var b := bento.value;
      var arr := GetTodoListArray(b.todoList);
      var stateObj := map[VERSION_CODE := JInt(versionCode), BENTO := JObj(EncodeBento(b)), TODO_LIST := JArr(arr)];
      var out := map[STATE := JObj(stateObj)];
      var thumb: Option<string> := None;
      if todoUuid.Some? && data.Some? {
        out := out[TODO_IMAGE := JObj(map[TODO_IMAGE_UUID := JStr(todoUuid.value)])];
        thumb := data;
      }
      assert out == Published(versionCode, b, todoUuid, data);
      if first {
        outbox := outbox + [Entry(RootEntry, out, thumb, None)];
        // setBentoObjUri on the new root: it has no state updates yet, so
        // the lookup yields the root itself with a NULL key (see
        // Feed.FreshRootResolvesToItself).
        StateRoundTrip(versionCode, b);
        ApplyLatest(Some(LatestObj(Some(out), 0)));
      } else {
        lastInt := NextKey(lastInt);
        outbox := outbox + [Entry(StateUpdate, out, thumb, Some(lastInt))];
      }
    }

    /** setNewStateObj: a new active Bento read from `state`. */
    method SetNewStateObj(state: Doc)
      modifies this`bento
      ensures bento == Some(DecodeState(state))
    {
      var b := FetchBentoObj(state, EmptyBento).GetOr(EmptyBento);
      var items, _ := FetchTodoListObj(state);
      bento := Some(b.(todoList := items));
    }

    /** The part of setBentoObjUri that applies the history lookup. */
    method ApplyLatest(latest: Option<LatestObj>)
      requires Parsed(latest)
      modifies this`bento, this`lastInt
      ensures latest.Some? && Has(latest.value.json.value, STATE) ==> (
        match OptObject(latest.value.json.value, STATE)
        case None => bento == None && lastInt == 0
        case Some(state) => bento == Some(DecodeState(state)) && lastInt == latest.value.intKey)
      ensures !(latest.Some? && Has(latest.value.json.value, STATE)) ==> (
        bento == old(bento) && lastInt == old(lastInt))
    {
      if latest.Some? && Has(latest.value.json.value, STATE) {
        var stateObj := OptObject(latest.value.json.value, STATE);
        if stateObj.None? {
          bento := None;
          lastInt := 0;
        } else {
          SetNewStateObj(stateObj.value);
          lastInt := latest.value.intKey;
        }
      }
    }

    /** setBentoObjUri: binds to the root `localId` and loads its latest state. */
    method SetBentoObjUri(records: seq<Record>, localId: int)
      requires Parsed(FetchLatestObj(records, localId))
      modifies this`bento, this`lastInt
      ensures var latest := FetchLatestObj(records, localId);
        latest.Some? && Has(latest.value.json.value, STATE) ==> (
        match OptObject(latest.value.json.value, STATE)
        case None => bento == None && lastInt == 0
        case Some(state) => bento == Some(DecodeState(state)) && lastInt == latest.value.intKey)
      ensures var latest := FetchLatestObj(records, localId);
        !(latest.Some? && Has(latest.value.json.value, STATE)) ==> (
        bento == old(bento) && lastInt == old(lastInt))
    {
      ApplyLatest(FetchLatestObj(records, localId));
    }

    // -------------------------------------------------------------
    // Local mutations
    // -------------------------------------------------------------

    /** createBento: activates `b` and publishes it as a new root. */
    method CreateBento(b: Bento)
      modifies this`bento, this`lastInt, this`outbox
      ensures bento == Some(b) && lastInt == 0
      ensures outbox == old(outbox) + [Entry(RootEntry, Published(versionCode, b, None, None), None, None)]
    {
      bento := Some(b);
      PushUpdate(None, None, true);
    }

    /** addTodo: the new item goes first; the image, if any, rides along. */
    method AddTodo(item: TodoItem, image: Option<string>)
      requires bento.Some?
      modifies this`bento, this`lastInt, this`outbox
      ensures bento == Some(old(bento).value.(todoList := [item] + old(bento).value.todoList))
      ensures bento.value.todoList[0] == item && GetTodoListCount() == old(GetTodoListCount()) + 1
      ensures forall i :: 0 <= i < |old(bento).value.todoList| ==>
        bento.value.todoList[i + 1] == old(bento).value.todoList[i]
      ensures lastInt == NextKey(old(lastInt))
      ensures var uuid := if image.Some? then Some(item.uuid) else None;
        outbox == old(outbox) + [Entry(StateUpdate, Published(versionCode, bento.value, uuid, image),
                                       image, Some(lastInt))]
    {
      var b := bento.value;
      assert InsertAt(b.todoList, 0, item) == [item] + b.todoList;
      bento := Some(b.(todoList := InsertAt(b.todoList, 0, item)));
      if image.None? {
        PushUpdate(None, None, false);
      } else {
        PushUpdate(Some(item.uuid), image, false);
      }
    }

    /** removeTodo: not supported; nothing changes and nothing is published. */
    method RemoveTodo(item: TodoItem)
      ensures unchanged(this)
    {
    }

    /**
     * updateTodo: the first item with `u`'s uuid is replaced in place; the
     * state is published whether or not one was found.
     */
    method UpdateTodo(u: TodoItem)
      requires bento.Some?
      modifies this`bento, this`lastInt, this`outbox
      ensures bento == Some(old(bento).value.(todoList := ReplaceFirst(old(bento).value.todoList, u)))
      ensures lastInt == NextKey(old(lastInt))
      ensures outbox == old(outbox) + [Entry(StateUpdate, Published(versionCode, bento.value, None, None),
                                             None, Some(lastInt))]
    {
      var b := bento.value;
      var list := b.todoList;
      var i := 0;
      while i < |list|
        invariant 0 <= i <= |list|
        invariant forall j :: 0 <= j < i ==> list[j].uuid != u.uuid
      {
        if list[i].uuid == u.uuid {
          list := InsertAt(RemoveAt(list, i), i, u);
          assert list == b.todoList[i := u];
          break;
        }
        i := i + 1;
      }
      bento := Some(b.(todoList := list));
      PushUpdate(None, None, false);
    }

    /** sortTodoList: moves one item; nothing is published. */
    method SortTodoList(from: int, to: int)
      requires bento.Some?
      requires 0 <= from < |bento.value.todoList| && 0 <= to < |bento.value.todoList|
      modifies this`bento
      ensures bento == Some(old(bento).value.(todoList := Move(old(bento).value.todoList, from, to)))
    {
      var b := bento.value;
      var list := b.todoList;
      var item := list[from];
      if from < to {
        list := InsertAt(list, to + 1, item);
        list := RemoveAt(list, from);
        AddAfterThenRemoveIsMove(b.todoList, from, to);
      } else if from > to {
        list := RemoveAt(list, from);
        list := InsertAt(list, to, item);
      } else {
        MoveToSelf(b.todoList, from);
      }
      bento := Some(b.(todoList := list));
    }

    /** sortTodoCompleted: publishes the order reached by sorting. */
    method SortTodoCompleted()
      requires bento.Some?
      modifies this`bento, this`lastInt, this`outbox
      ensures bento == old(bento) && lastInt == NextKey(old(lastInt))
      ensures outbox == old(outbox) + [Entry(StateUpdate, Published(versionCode, bento.value, None, None),
                                             None, Some(lastInt))]
    {
      PushUpdate(None, None, false);
    }

    /**
     * clearTodoDone: drops every done item, scanning from the back, and
     * publishes only if something was dropped.
     */
    method ClearTodoDone()
      requires bento.Some?
      modifies this`bento, this`lastInt, this`outbox
      ensures bento == Some(old(bento).value.(todoList := FilterUndone(old(bento).value.todoList)))
      ensures var changed := |bento.value.todoList| < |old(bento).value.todoList|;
        (changed ==> (lastInt == NextKey(old(lastInt)) &&
           outbox == old(outbox) + [Entry(StateUpdate, Published(versionCode, bento.value, None, None),
                                          None, Some(lastInt))])) &&
        (!changed ==> (lastInt == old(lastInt) && outbox == old(outbox)))
    {
      var b := bento.value;
      var beforeCount := |b.todoList|;
      if beforeCount == 0 {
        return;
      }
      var list := b.todoList;
      var i := beforeCount - 1;
      while i >= 0
        invariant -1 <= i < beforeCount
        invariant list == b.todoList[..i + 1] + FilterUndone(b.todoList[i + 1..])
      {
        var item := list[i];
        ghost var rest := FilterUndone(b.todoList[i + 1..]);
        assert b.todoList[i..][1..] == b.todoList[i + 1..];
        assert b.todoList[..i + 1] == b.todoList[..i] + [b.todoList[i]];
        if item.done {
          list := RemoveAt(list, i);
          assert list == b.todoList[..i] + rest;
        }
        i := i - 1;
      }
      assert b.todoList[0..] == b.todoList && b.todoList[..0] == [];
      assert list == FilterUndone(b.todoList);
      bento := Some(b.(todoList := list));
      if beforeCount > |list| {
        PushUpdate(None, None, false);
      }
    }

    // -------------------------------------------------------------
    // Incoming entries
    // -------------------------------------------------------------

    /**
     * The state observer's onUpdate: an entry with `state` always posts a
     * refresh, and replaces the state only when it names the active Bento.
     */
    method OnUpdate(json: Option<Doc>, intKey: Option<Int32>)
      modifies this`bento, this`lastInt, this`refreshes
      ensures var r := React(old(bento), json, intKey);
        refreshes == old(refreshes) + (if r == Ignore then 0 else 1) &&
        (r.Apply? ==> bento == Some(r.bento) && lastInt == r.key) &&
        (!r.Apply? ==> bento == old(bento) && lastInt == old(lastInt))
    {
      if json.None? || !Has(json.value, STATE) {
        return;
      }
      refreshes := refreshes + 1;
      if bento.None? {
        return;
      }
      var stateObj := OptObject(json.value, STATE);
      if stateObj.None? {
        // onUpdate dereferences the null stateObj here (BentoManager.java:588).
        return;
      }
      var bentoObj := OptObject(stateObj.value, BENTO);
      if bentoObj.None? {
        return;
      }
      if !IsValidBento(bento, OptString(bentoObj.value, BENTO_UUID)) {
        return;
      }
      SetNewStateObj(stateObj.value);
      lastInt := KeyOrZero(intKey);
    }

    // -------------------------------------------------------------
    // Catalog and members
    // -------------------------------------------------------------

    /** fetchMemberNames: fills the cache for `feedId` unless already there. */
    method FetchMemberNames(feedId: int, directory: int -> seq<Option<Identity>>)
      modifies this`memberNameCache
      ensures memberNameCache == FillCache(old(memberNameCache), feedId, directory)
    {
      if memberNameCache.None? {
        memberNameCache := Some(map[]);
      }
      if feedId !in memberNameCache.value {
        var names := CollectMemberNames(directory(feedId));
        memberNameCache := Some(memberNameCache.value[feedId := names]);
      }
    }

    /** getMemberNames: the cached names of `feedId`, fetched on a miss. */
    method GetMemberNames(feedId: int, directory: int -> seq<Option<Identity>>) returns (names: seq<string>)
      modifies this`memberNameCache
      ensures memberNameCache == FillCache(old(memberNameCache), feedId, directory)
      ensures names == memberNameCache.value[feedId]
      ensures old(memberNameCache).Some? && feedId in old(memberNameCache).value ==>
        names == old(memberNameCache).value[feedId] && memberNameCache == old(memberNameCache)
    {
      if memberNameCache.None? || feedId !in memberNameCache.value {
        FetchMemberNames(feedId, directory);
      }
      names := memberNameCache.value[feedId];
    }

    /**
     * The body of loadBentoList's root loop for one root: a root whose state
     * reads is listed at the front of `tmp`, and its feed's members fetched.
     */
    method LoadRow(latest: Option<LatestObj>, row: CatalogRow, tmp: seq<BentoSummary>,
                   directory: int -> seq<Option<Identity>>) returns (tmp': seq<BentoSummary>)
      requires Parsed(latest)
      modifies this`memberNameCache
      ensures var o := RowOutcomeFor(latest, row);
        tmp' == (if o.Shown? then [o.summary] else []) + tmp &&
        memberNameCache == (if o.Shown? then FillCache(old(memberNameCache), o.summary.feedId, directory)
                            else if o.MembersOnly? then FillCache(old(memberNameCache), o.feedId, directory)
                            else old(memberNameCache))
    {
      tmp' := tmp;
      if latest.Some? && Has(latest.value.json.value, STATE) {
        var stateObj := OptObject(latest.value.json.value, STATE);
        // fetchBentoObj dereferences a null stateObj (BentoManager.java:623).
        if stateObj.Some? {
          var b := FetchBentoObj(stateObj.value, EmptyBento);
          if b.Some? {
            var items, ok := FetchTodoListObj(stateObj.value);
            if ok {
              var item := BentoSummary(b.value.uuid, b.value.name, b.value.creContactId,
                                       |items|, row.localId, row.feedId);
              tmp' := [item] + tmp;
            }
            FetchMemberNames(row.feedId, directory);
          }
        }
      }
    }

    /** loadBentoList's divider pass: appends `tmp` with its dividers. */
    method AppendWithDividers(tmp: seq<BentoSummary>)
      modifies this`bentoList
      ensures bentoList == old(bentoList) + WithDividers(tmp, -1)
    {
      var prevFeedId := -1;
      var j := 0;
      while j < |tmp|
        invariant 0 <= j <= |tmp|
        invariant old(bentoList) + WithDividers(tmp, -1) == bentoList + WithDividers(tmp[j..], prevFeedId)
      {
        var item := tmp[j];
        assert tmp[j..][1..] == tmp[j + 1..];
        if prevFeedId != item.feedId {
          bentoList := bentoList + [Divider(item.feedId)];
          prevFeedId := item.feedId;
        }
        bentoList := bentoList + [Listed(item)];
        j := j + 1;
      }
      assert tmp[j..] == [];
    }

    /**
     * loadBentoList: lists every root whose latest state reads, newest
     * first, with a divider before each feed's run, and fetches the members
     * of each feed met. With no roots at all the old catalog stays.
     */
    method LoadBentoList(records: seq<Record>, rows: seq<CatalogRow>, directory: int -> seq<Option<Identity>>)
      requires AllParsed(records, rows)
      modifies this`bentoList, this`memberNameCache
      ensures bentoList == if rows == [] then old(bentoList) else WithDividers(Listing(records, rows), -1)
      ensures memberNameCache == FillAll(old(memberNameCache), MemberFeeds(records, rows), directory)
    {
      var tmp: seq<BentoSummary> := [];
      if rows != [] {
        bentoList := [];
      }
      var i := 0;
      while i < |rows|
        invariant 0 <= i <= |rows|
        invariant tmp == Listing(records, rows[..i])
        invariant memberNameCache == FillAll(old(memberNameCache), MemberFeeds(records, rows[..i]), directory)
        invariant bentoList == if rows == [] then old(bentoList) else []
      {
        ghost var before := rows[..i + 1];
        assert before[..i] == rows[..i];
        assert OutcomeAt(records, before, i) == OutcomeAt(records, rows, i);
        ghost var o := OutcomeAt(records, rows, i);
        ghost var fs := MemberFeeds(records, rows[..i]);
        tmp := LoadRow(FetchLatestObj(records, rows[i].localId), rows[i], tmp, directory);
        if o.Shown? {
          FillAllSnoc(old(memberNameCache), fs, o.summary.feedId, directory);
        } else if o.MembersOnly? {
          FillAllSnoc(old(memberNameCache), fs, o.feedId, directory);
        } else {
          assert fs + [] == fs;
        }
        i := i + 1;
      }
      assert rows[..i] == rows;
      AppendWithDividers(tmp);
    }
  }

  /**
   * A client publishing the current order `n` times in a row: the entries
   * carry the keys PostedKeys gives, and the key ends at the last of them.
   */
  method SuccessiveUpdates(m: BentoManager, n: nat)
    requires m.bento.Some?
    modifies m`bento, m`lastInt, m`outbox
    ensures m.bento == old(m.bento)
    ensures |m.outbox| == |old(m.outbox)| + n
    ensures forall t :: 0 <= t < n ==> m.outbox[|old(m.outbox)| + t].intKey == Some(PostedKeys(old(m.lastInt), n)[t])
    ensures m.lastInt == if n == 0 then old(m.lastInt) else PostedKeys(old(m.lastInt), n)[n - 1]
  {
    var k := m.lastInt;
    var start := |m.outbox|;
    var i := 0;
    while i < n
      invariant 0 <= i <= n
      invariant m.bento == old(m.bento)
      invariant |m.outbox| == start + i
      invariant forall t :: 0 <= t < i ==> m.outbox[start + t].intKey == Some(PostedKeys(k, i)[t])
      invariant m.lastInt == if i == 0 then k else PostedKeys(k, i)[i - 1]
    {
      PostedKeysSnoc(k, i);
      m.SortTodoCompleted();
      i := i + 1;
    }
  }

  /**
   * The walk-through of a create, an add, a remote snapshot and a clear:
   * what the contracts above let a caller conclude.
   */
  method GroceriesScenario() {
    var m := new BentoManager(1);
    m.CreateBento(Bento("B", "Groceries", "u1", []));
    var t1 := TodoItem("t1", "Milk", "", false, false, 0, 0, "u1", "u1");
    m.AddTodo(t1, None);
    assert m.bento.value.todoList == [t1];
    assert |m.outbox| == 2 && m.outbox[0].kind == RootEntry;
    assert m.outbox[1].kind == StateUpdate && m.outbox[1].intKey == Some(1);

    var t2 := TodoItem("t2", "Eggs", "", false, false, 0, 0, "u2", "u2");
    var remote := Bento("B", "Groceries", "u1", [t1.(done := true), t2]);
    PublishedEntryReapplies(1, m.bento.value, remote, None, None, Some(1));
    m.OnUpdate(Some(Published(1, remote, None, None)), Some(1));
    assert m.bento == Some(remote) && m.lastInt == 1 && m.refreshes == 1;

    m.ClearTodoDone();
    assert FilterUndone(remote.todoList) == [t2];
    assert m.bento.value.todoList == [t2];
    assert |m.outbox| == 3 && m.outbox[2].intKey == Some(2);
  }
}
