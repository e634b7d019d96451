/**
 * The state document a Bento is published as, and the tolerant reader that
 * turns such a document back into a Bento.
 */
module StateCodec {
  import opened Wrappers
  import opened Json
  import opened Todo

  // root > state
  const STATE := "state"
  // root > state > bento
  const VERSION_CODE := "version_code"
  const BENTO := "bento"
  const BENTO_UUID := "uuid"
  const BENTO_NAME := "name"
  const BENTO_CRE_CONTACT_ID := "cre_contact_id"
  // root > state > todo array
  const TODO_LIST := "list"
  const TODO_UUID := "uuid"
  const TODO_TITLE := "title"
  const TODO_DESCRIPTION := "description"
  const TODO_HAS_IMG := "has_image"
  const TODO_DONE := "done"
  const TODO_CRE_DATE := "cre_date"
  const TODO_MOD_DATE := "mod_date"
  const TODO_CRE_CONTACT_ID := "cre_contact_id"
  const TODO_MOD_CONTACT_ID := "mod_contact_id"
  // root > todo_image
  const TODO_IMAGE := "todo_image"
  const TODO_IMAGE_UUID := "todo_image_uuid"

  // ---------------------------------------------------------------
  // Writing
  // ---------------------------------------------------------------

  /** getBentoObj: the `bento` object. */
  function EncodeBento(b: Bento): Doc {
    map[BENTO_UUID := JStr(b.uuid),
        BENTO_NAME := JStr(b.name),
        BENTO_CRE_CONTACT_ID := JStr(b.creContactId)]
  }

  /** One element of the `list` array. */
  function EncodeItem(t: TodoItem): Doc {
    map[TODO_UUID := JStr(t.uuid),
        TODO_TITLE := JStr(t.title),
        TODO_DESCRIPTION := JStr(t.description),
        TODO_HAS_IMG := JBool(t.hasImage),
        TODO_DONE := JBool(t.done),
        TODO_CRE_DATE := JInt(t.creDateMillis),
        TODO_MOD_DATE := JInt(t.modDateMillis),
        TODO_CRE_CONTACT_ID := JStr(t.creContactId),
        TODO_MOD_CONTACT_ID := JStr(t.modContactId)]
  }

  /** The `list` array: one object per item, in list order. */
  function EncodeList(items: seq<TodoItem>): (r: seq<Json>)
    ensures |r| == |items|
    ensures forall i :: 0 <= i < |items| ==> r[i] == JObj(EncodeItem(items[i]))
  {
    seq(|items|, i requires 0 <= i < |items| => JObj(EncodeItem(items[i])))
  }

  /** getStateObj: the whole `state` object of a Bento. */
  function EncodeState(versionCode: int, b: Bento): Doc {
    map[VERSION_CODE := JInt(versionCode),
        BENTO := JObj(EncodeBento(b)),
        TODO_LIST := JArr(EncodeList(b.todoList))]
  }

  /** getTodoListArray: builds the `list` array item by item. */
  method GetTodoListArray(items: seq<TodoItem>) returns (arr: seq<Json>)
    ensures arr == EncodeList(items)
  {
    arr := [];
    var i := 0;
    while i < |items|
      invariant 0 <= i <= |items|
      invariant arr == EncodeList(items[..i])
    {
      arr := arr + [JObj(EncodeItem(items[i]))];
      i := i + 1;
      assert items[..i] == items[..i - 1] + [items[i - 1]];
    }
    assert items[..i] == items;
  }

  // ---------------------------------------------------------------
  // Reading
  // ---------------------------------------------------------------

  /** One element of `list`, every field read with its default. */
  function DecodeItem(o: Doc): TodoItem {
    TodoItem(
      OptString(o, TODO_UUID),
      OptString(o, TODO_TITLE),
      OptString(o, TODO_DESCRIPTION),
      OptBoolean(o, TODO_HAS_IMG),
      OptBoolean(o, TODO_DONE),
      OptLong(o, TODO_CRE_DATE),
      OptLong(o, TODO_MOD_DATE),
      OptString(o, TODO_CRE_CONTACT_ID),
      OptString(o, TODO_MOD_CONTACT_ID))
  }

  /**
   * fetchBentoObj: overwrites uuid, name and creator of `into` from the
   * `bento` object; None where getJSONObject(BENTO) throws.
   */
  function FetchBentoObj(state: Doc, into: Bento): (r: Option<Bento>)
    ensures r.Some? <==> OptObject(state, BENTO).Some?
    ensures r.Some? ==> r.value.todoList == into.todoList
  {
    match OptObject(state, BENTO)
    case None => None
    case Some(o) =>
      Some(into.(uuid := OptString(o, BENTO_UUID),
                 name := OptString(o, BENTO_NAME),
                 creContactId := OptString(o, BENTO_CRE_CONTACT_ID)))
  }

  /** How many leading elements of `arr` are objects. */
  function ObjectPrefix(arr: seq<Json>): (k: nat)
    ensures k <= |arr|
    ensures forall j :: 0 <= j < k ==> arr[j].JObj?
    ensures k < |arr| ==> !arr[k].JObj?
  {
    if arr == [] || !arr[0].JObj? then 0 else 1 + ObjectPrefix(arr[1..])
  }

  /** The list a fetch produced, and whether it reported success. */
  datatype ListRead = ListRead(items: seq<TodoItem>, ok: bool)

  /**
   * fetchTodoListObj: no `list` array gives an empty list and false; an
   * element that is not an object throws from getJSONObject(i), which
   * leaves the items read so far and reports false.
   */
  function FetchTodoList(state: Doc): ListRead {
    match OptArray(state, TODO_LIST)
    case None => ListRead([], false)
    case Some(arr) =>
      var k := ObjectPrefix(arr);
      ListRead(seq(k, j requires 0 <= j < k => DecodeItem(arr[j].fields)), k == |arr|)
  }

  /** fetchTodoListObj's loop over the `list` array. */
  method FetchTodoListObj(state: Doc) returns (items: seq<TodoItem>, ok: bool)
    ensures ListRead(items, ok) == FetchTodoList(state)
  {
    items, ok := [], false;
    var arr := OptArray(state, TODO_LIST);
    if arr.None? {
      return;
    }
    var a := arr.value;
    var i := 0;
    while i < |a|
      invariant 0 <= i <= |a|
      invariant forall j :: 0 <= j < i ==> a[j].JObj?
      invariant items == seq(i, j requires 0 <= j < i => DecodeItem(a[j].fields))
    {
      if !a[i].JObj? {
        assert ObjectPrefix(a) == i;
        return;
      }
      items := items + [DecodeItem(a[i].fields)];
      i := i + 1;
    }
    assert ObjectPrefix(a) == |a|;
    ok := true;
  }

  /** setNewStateObj: a fresh Bento filled from `state`. */
  function DecodeState(state: Doc): Bento {
    var b := FetchBentoObj(state, EmptyBento).GetOr(EmptyBento);
    b.(todoList := FetchTodoList(state).items)
  }

  // ---------------------------------------------------------------
  // Properties
  // ---------------------------------------------------------------

  lemma DecodeEncodeItem(t: TodoItem)
    ensures DecodeItem(EncodeItem(t)) == t
  {
  }

  lemma ObjectPrefixOfEncodedList(items: seq<TodoItem>)
    ensures ObjectPrefix(EncodeList(items)) == |items|
  {
  }

  /** Reading back a written `list` gives the same items in the same order. */
  lemma TodoListRoundTrip(v: int, b: Bento)
    ensures FetchTodoList(EncodeState(v, b)) == ListRead(b.todoList, true)
  {
    var arr := EncodeList(b.todoList);
    ObjectPrefixOfEncodedList(b.todoList);
    var items := seq(|arr|, j requires 0 <= j < |arr| => DecodeItem(arr[j].fields));
    forall j | 0 <= j < |arr| ensures items[j] == b.todoList[j] {
      DecodeEncodeItem(b.todoList[j]);
    }
  }

  /** Round trip: decoding what getStateObj wrote gives back the Bento. */
  lemma StateRoundTrip(v: int, b: Bento)
    ensures FetchBentoObj(EncodeState(v, b), EmptyBento) ==
      Some(EmptyBento.(uuid := b.uuid, name := b.name, creContactId := b.creContactId))
    ensures DecodeState(EncodeState(v, b)) == b
  {
    TodoListRoundTrip(v, b);
  }

  /** Each missing field of an item reads as "", false or 0, whatever else the item holds. */
  lemma MissingItemFieldsDefault(o: Doc)
    ensures TODO_UUID !in o ==> DecodeItem(o).uuid == ""
    ensures TODO_TITLE !in o ==> DecodeItem(o).title == ""
    ensures TODO_DESCRIPTION !in o ==> DecodeItem(o).description == ""
    ensures TODO_HAS_IMG !in o ==> !DecodeItem(o).hasImage
    ensures TODO_DONE !in o ==> !DecodeItem(o).done
    ensures TODO_CRE_DATE !in o ==> DecodeItem(o).creDateMillis == 0
    ensures TODO_MOD_DATE !in o ==> DecodeItem(o).modDateMillis == 0
    ensures TODO_CRE_CONTACT_ID !in o ==> DecodeItem(o).creContactId == ""
    ensures TODO_MOD_CONTACT_ID !in o ==> DecodeItem(o).modContactId == ""
  {
  }

  /**
   * The header fields of the `bento` object: a string present is read as it
   * is, and a missing one reads as "", which the uuid check then compares.
   */
  lemma BentoHeaderFieldsRead(state: Doc, into: Bento, o: Doc)
    requires OptObject(state, BENTO) == Some(o)
    ensures BENTO_UUID !in o ==> FetchBentoObj(state, into).value.uuid == ""
    ensures BENTO_NAME !in o ==> FetchBentoObj(state, into).value.name == ""
    ensures BENTO_CRE_CONTACT_ID !in o ==> FetchBentoObj(state, into).value.creContactId == ""
    ensures BENTO_UUID in o && o[BENTO_UUID].JStr? ==> FetchBentoObj(state, into).value.uuid == o[BENTO_UUID].s
    ensures BENTO_NAME in o && o[BENTO_NAME].JStr? ==> FetchBentoObj(state, into).value.name == o[BENTO_NAME].s
    ensures BENTO_CRE_CONTACT_ID in o && o[BENTO_CRE_CONTACT_ID].JStr? ==>
      FetchBentoObj(state, into).value.creContactId == o[BENTO_CRE_CONTACT_ID].s
  {
  }

  /** A `state` without a `bento` object is reported as false. */
  lemma MissingBentoIsReported(state: Doc, into: Bento)
    requires BENTO !in state
    ensures FetchBentoObj(state, into) == None
  {
  }

  /** A `state` without a `list` array is reported as false with no items. */
  lemma MissingListIsReported(state: Doc)
    requires TODO_LIST !in state
    ensures FetchTodoList(state) == ListRead([], false)
  {
  }

  /** The list read is a prefix-wise decode; it is complete exactly when ok. */
  lemma PartialListIsPrefix(state: Doc, arr: seq<Json>, k: nat)
    requires OptArray(state, TODO_LIST) == Some(arr)
    requires k < |arr| && !arr[k].JObj?
    ensures !FetchTodoList(state).ok
    ensures |FetchTodoList(state).items| <= k
  {
  }
}
