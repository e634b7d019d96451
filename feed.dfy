/**
 * The stored feed history as the store sees it through its queries: records
 * with a parent, a type, a parsed JSON document and an optional int key.
 */
module Feed {
  import opened Wrappers
  import opened Json
  import opened StateCodec

  const INT32_MIN: int := -0x8000_0000
  const INT32_MAX: int := 0x7fff_ffff

  /** A Java `int` / `Integer` value. */
  type Int32 = x: int | INT32_MIN <= x <= INT32_MAX

  /**
   * `++mLastInt` on a Java Integer: one more, except that the top of the
   * range wraps to the bottom (two's complement).
   */
  function NextKey(k: Int32): Int32 {
    if k == INT32_MAX then INT32_MIN else k + 1
  }

  /** The keys that `n` successive state updates post, starting from key `k`. */
  function PostedKeys(k: Int32, n: nat): (r: seq<Int32>)
    ensures |r| == n
    decreases n
  {
    if n == 0 then [] else [NextKey(k)] + PostedKeys(NextKey(k), n - 1)
  }

  /** Below the top of the range, `n` updates post k+1, ..., k+n, each above the last. */
  lemma {:induction false} PostedKeysAscend(k: Int32, n: nat)
    requires k + n <= INT32_MAX
    ensures forall i :: 0 <= i < n ==> PostedKeys(k, n)[i] == k + i + 1
    ensures forall i, j :: 0 <= i < j < n ==> PostedKeys(k, n)[i] < PostedKeys(k, n)[j]
    decreases n
  {
    if n > 0 {
      PostedKeysAscend(NextKey(k), n - 1);
      assert forall i :: 0 < i < n ==> PostedKeys(k, n)[i] == PostedKeys(NextKey(k), n - 1)[i - 1];
    }
  }

  /**
   * The update posted right after the key reaches the top carries the
   * lowest key, below the key of every update posted before it.
   */
  lemma PostedKeysWrap(k: Int32, n: nat)
    requires k + n == INT32_MAX
    ensures PostedKeys(k, n + 1) == PostedKeys(k, n) + [INT32_MIN]
    ensures forall i :: 0 <= i < n ==> INT32_MIN < PostedKeys(k, n)[i]
  {
    PostedKeysSnoc(k, n);
    PostedKeysAscend(k, n);
    if n > 0 {
      assert PostedKeys(k, n)[n - 1] == INT32_MAX;
    }
  }

  /** One more update posts the key after the last one posted (after `k` if none). */
  lemma {:induction false} PostedKeysSnoc(k: Int32, n: nat)
    ensures PostedKeys(k, n + 1) == PostedKeys(k, n) + [NextKey(if n == 0 then k else PostedKeys(k, n)[n - 1])]
    decreases n
  {
    if n > 0 {
      PostedKeysSnoc(NextKey(k), n - 1);
      if n > 1 {
        assert PostedKeys(k, n)[n - 1] == PostedKeys(NextKey(k), n - 1)[n - 2];
      }
    }
  }

  const TYPE_TODOBENTO := "todobento"
  const TYPE_APPSTATE := "appstate"

  /**
   * One row of the object table: local id, parent id, type, the JSON column
   * (None where it does not parse) and the int-key column (None for NULL).
   */
  datatype Record = Record(
    id: int,
    parentId: Option<int>,
    kind: string,
    json: Option<Doc>,
    intKey: Option<Int32>)

  /** LatestObj: the json found (null where parsing failed) and its int key. */
  datatype LatestObj = LatestObj(json: Option<Doc>, intKey: Int32)

  /** Cursor.getInt on the int-key column: NULL reads as 0. */
  function KeyOrZero(k: Option<Int32>): Int32 {
    k.GetOr(0)
  }

  /** `a` sorts no lower than `b` by int key; NULL sorts below every number. */
  predicate KeyAtLeast(a: Option<Int32>, b: Option<Int32>) {
    b.None? || (a.Some? && a.value >= b.value)
  }

  /** A state update posted under the root with local id `localId`. */
  predicate IsStateChild(r: Record, localId: int) {
    r.parentId == Some(localId) && r.kind == TYPE_APPSTATE
  }

  /**
   * The first state update under `localId` whose key is maximal: the row
   * "int_key desc limit 1" returns, with ties broken by storage order.
   */
  function LatestChild(rs: seq<Record>, localId: int): (r: Option<nat>)
    ensures r.Some? ==> r.value < |rs| && IsStateChild(rs[r.value], localId)
    ensures r.Some? ==> forall j :: 0 <= j < |rs| && IsStateChild(rs[j], localId) ==>
      KeyAtLeast(rs[r.value].intKey, rs[j].intKey)
    ensures r.None? <==> forall j :: 0 <= j < |rs| ==> !IsStateChild(rs[j], localId)
  {
    if rs == [] then None
    else
      var rest := LatestChild(rs[1..], localId);
      if !IsStateChild(rs[0], localId) then
        (if rest.Some? then Some(rest.value + 1) else None)
      else if rest.Some? && !KeyAtLeast(rs[0].intKey, rs[rest.value + 1].intKey) then
        Some(rest.value + 1)
      else
        Some(0)
  }

  /** The first record whose local id is `localId`. */
  function RecordById(rs: seq<Record>, localId: int): (r: Option<nat>)
    ensures r.Some? ==> r.value < |rs| && rs[r.value].id == localId
    ensures r.None? <==> forall j :: 0 <= j < |rs| ==> rs[j].id != localId
  {
    if rs == [] then None
    else if rs[0].id == localId then Some(0)
    else
      match RecordById(rs[1..], localId)
      case None => None
      case Some(k) => Some(k + 1)
  }

  function LatestOf(r: Record): LatestObj {
    LatestObj(r.json, KeyOrZero(r.intKey))
  }

  /**
   * fetchLatestObj: the state update under `localId` with the highest key;
   * failing that, the record `localId` itself; failing that, null.
   */
  function FetchLatestObj(rs: seq<Record>, localId: int): Option<LatestObj> {
    match LatestChild(rs, localId)
    case Some(i) => Some(LatestOf(rs[i]))
    case None =>
      match RecordById(rs, localId)
      case Some(i) => Some(LatestOf(rs[i]))
      case None => None
  }

  /**
   * Every answer the two queries may give: the store does not fix which of
   * several updates sharing the top key is returned.
   */
  ghost predicate IsLatestChoice(rs: seq<Record>, localId: int, r: Option<LatestObj>) {
    if exists j :: 0 <= j < |rs| && IsStateChild(rs[j], localId) then
      exists i :: 0 <= i < |rs| && IsStateChild(rs[i], localId) &&
        (forall j :: 0 <= j < |rs| && IsStateChild(rs[j], localId) ==>
           KeyAtLeast(rs[i].intKey, rs[j].intKey)) &&
        r == Some(LatestOf(rs[i]))
    else if exists j :: 0 <= j < |rs| && rs[j].id == localId then
      exists i :: 0 <= i < |rs| && rs[i].id == localId && r == Some(LatestOf(rs[i]))
    else
      r == None
  }

  lemma FetchLatestObjIsAChoice(rs: seq<Record>, localId: int)
    ensures IsLatestChoice(rs, localId, FetchLatestObj(rs, localId))
  {
    match LatestChild(rs, localId)
    case Some(i) =>
    case None =>
      match RecordById(rs, localId)
      case Some(i) =>
      case None =>
  }

  /** Any two admissible answers that come from state updates share their key. */
  lemma ChoicesAgreeOnKey(rs: seq<Record>, localId: int, a: Option<LatestObj>, b: Option<LatestObj>)
    requires exists j :: 0 <= j < |rs| && IsStateChild(rs[j], localId)
    requires IsLatestChoice(rs, localId, a) && IsLatestChoice(rs, localId, b)
    ensures a.Some? && b.Some? && a.value.intKey == b.value.intKey
  {
    var i :| 0 <= i < |rs| && IsStateChild(rs[i], localId) &&
      (forall j :: 0 <= j < |rs| && IsStateChild(rs[j], localId) ==>
         KeyAtLeast(rs[i].intKey, rs[j].intKey)) &&
      a == Some(LatestOf(rs[i]));
    var k :| 0 <= k < |rs| && IsStateChild(rs[k], localId) &&
      (forall j :: 0 <= j < |rs| && IsStateChild(rs[j], localId) ==>
         KeyAtLeast(rs[k].intKey, rs[j].intKey)) &&
      b == Some(LatestOf(rs[k]));
    assert KeyAtLeast(rs[i].intKey, rs[k].intKey) && KeyAtLeast(rs[k].intKey, rs[i].intKey);
  }

  /**
   * A root just inserted under a fresh id has no state updates yet, so the
   * lookup falls back to the root itself, whose int key is NULL.
   */
  lemma FreshRootResolvesToItself(rs: seq<Record>, newId: int, doc: Doc)
    requires forall j :: 0 <= j < |rs| ==> rs[j].id != newId && rs[j].parentId != Some(newId)
    ensures FetchLatestObj(rs + [Record(newId, None, TYPE_TODOBENTO, Some(doc), None)], newId) ==
      Some(LatestObj(Some(doc), 0))
  {
    var all := rs + [Record(newId, None, TYPE_TODOBENTO, Some(doc), None)];
    assert all[|rs|].id == newId;
    assert LatestChild(all, newId).None?;
    assert RecordById(all, newId) == Some(|rs|);
  }

  // ---------------------------------------------------------------
  // Image attachment search (getTodoBitmap)
  // ---------------------------------------------------------------

  /** The outcome of scanning the feed for an item's image. */
  datatype ImageSearch = ImageAt(index: nat) | NoImage | ImageSearchCrash

  /** The entry carries a `todo_image` object naming `todoUuid`. */
  predicate CarriesImageFor(e: Option<Doc>, todoUuid: string) {
    e.Some? && match OptObject(e.value, TODO_IMAGE)
               case Some(img) => OptString(img, TODO_IMAGE_UUID) == todoUuid
               case None => false
  }

  /**
   * The scan as written: an entry that has `todo_image` holding something
   * other than an object makes optJSONObject yield null, which is then
   * dereferenced.
   */
  function ImageSearchAsWritten(entries: seq<Option<Doc>>, todoUuid: string): ImageSearch {
    if entries == [] then NoImage
    else if entries[0].Some? && Has(entries[0].value, TODO_IMAGE) && OptObject(entries[0].value, TODO_IMAGE).None? then
      ImageSearchCrash
    else if CarriesImageFor(entries[0], todoUuid) then ImageAt(0)
    else
      match ImageSearchAsWritten(entries[1..], todoUuid)
      case ImageAt(k) => ImageAt(k + 1)
      case other => other
  }

  lemma ImageSearchCrashesOnScalarImage()
    ensures ImageSearchAsWritten([Some(map[TODO_IMAGE := JStr("t1")])], "t1") == ImageSearchCrash
  {
  }

  /**
   * getTodoBitmap's scan, with a non-object `todo_image` skipped: the first
   * entry whose image names `todoUuid`.
   */
  method FindImageEntry(entries: seq<Option<Doc>>, todoUuid: string) returns (r: Option<nat>)
    ensures r.Some? ==> r.value < |entries| && CarriesImageFor(entries[r.value], todoUuid)
    ensures r.Some? ==> forall j :: 0 <= j < r.value ==> !CarriesImageFor(entries[j], todoUuid)
    ensures r.None? <==> forall j :: 0 <= j < |entries| ==> !CarriesImageFor(entries[j], todoUuid)
  {
    var i := 0;
    while i < |entries|
      invariant 0 <= i <= |entries|
      invariant forall j :: 0 <= j < i ==> !CarriesImageFor(entries[j], todoUuid)
    {
      var e := entries[i];
      if e.Some? && Has(e.value, TODO_IMAGE) {
        var diff := OptObject(e.value, TODO_IMAGE);
        if diff.Some? && OptString(diff.value, TODO_IMAGE_UUID) == todoUuid {
          return Some(i);
        }
      }
      i := i + 1;
    }
    return None;
  }

  /** Where the scan as written does not crash, the corrected scan agrees. */
  lemma {:induction false} ImageSearchAgrees(entries: seq<Option<Doc>>, todoUuid: string)
    requires ImageSearchAsWritten(entries, todoUuid) != ImageSearchCrash
    ensures ImageSearchAsWritten(entries, todoUuid).ImageAt? ==>
      var k := ImageSearchAsWritten(entries, todoUuid).index;
      k < |entries| && CarriesImageFor(entries[k], todoUuid) &&
      forall j :: 0 <= j < k ==> !CarriesImageFor(entries[j], todoUuid)
    ensures ImageSearchAsWritten(entries, todoUuid).NoImage? ==>
      forall j :: 0 <= j < |entries| ==> !CarriesImageFor(entries[j], todoUuid)
  {
    if entries != [] && !CarriesImageFor(entries[0], todoUuid) {
      ImageSearchAgrees(entries[1..], todoUuid);
      assert forall j :: 1 <= j < |entries| ==> entries[j] == entries[1..][j - 1];
    }
  }
}
