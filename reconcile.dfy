/**
 * How the state observer reacts to one incoming feed entry: ignore it,
 * only ask listeners to refresh, or also replace the active Bento.
 */
module Reconcile {
  import opened Wrappers
  import opened Json
  import opened Todo
  import opened StateCodec
  import opened Feed

  datatype Reaction =
    | Ignore                          // returned before notifying
    | NotifyOnly                      // refresh posted, state kept
    | Apply(bento: Bento, key: Int32) // refresh posted, state replaced
    | Crash                           // a null is dereferenced

  /** isValidBento: a Bento is active and its uuid equals `uuid`. */
  predicate IsValidBento(active: Option<Bento>, uuid: string) {
    active.Some? && active.value.uuid == uuid
  }

  /** The steps after the `state` object has been obtained. */
  function ReactToState(active: Option<Bento>, state: Doc, intKey: Option<Int32>): Reaction {
    match OptObject(state, BENTO)
    case None => NotifyOnly
    case Some(bentoObj) =>
      if !IsValidBento(active, OptString(bentoObj, BENTO_UUID)) then NotifyOnly
      else Apply(DecodeState(state), KeyOrZero(intKey))
  }

  /**
   * onUpdate as written: a `state` key holding something other than an
   * object yields a null stateObj that getJSONObject is then called on.
   */
  function ReactAsWritten(active: Option<Bento>, json: Option<Doc>, intKey: Option<Int32>): Reaction {
    if json.None? || !Has(json.value, STATE) then Ignore
    else if active.None? then NotifyOnly
    else
      match OptObject(json.value, STATE)
      case None => Crash
      case Some(state) => ReactToState(active, state, intKey)
  }

  /** onUpdate with a non-object `state` treated like a missing `bento`. */
  function React(active: Option<Bento>, json: Option<Doc>, intKey: Option<Int32>): (r: Reaction)
    ensures r != Crash
  {
    if json.None? || !Has(json.value, STATE) then Ignore
    else if active.None? then NotifyOnly
    else
      match OptObject(json.value, STATE)
      case None => NotifyOnly
      case Some(state) => ReactToState(active, state, intKey)
  }

  // ---------------------------------------------------------------
  // Properties
  // ---------------------------------------------------------------

  /** An entry is ignored without notification exactly when it has no `state`. */
  lemma IgnoredIffStateless(active: Option<Bento>, json: Option<Doc>, intKey: Option<Int32>)
    ensures React(active, json, intKey) == Ignore <==> json.None? || STATE !in json.value
  {
  }

  /**
   * The state is replaced exactly when a Bento is active and the entry's
   * `bento` object names its uuid; the new state is the decoded snapshot,
   * still carrying the active uuid, and the key is the entry's or 0.
   */
  lemma AppliesExactlyOnMatchingUuid(active: Option<Bento>, json: Option<Doc>, intKey: Option<Int32>)
    ensures React(active, json, intKey).Apply? <==>
      json.Some? && active.Some? &&
      OptObject(json.value, STATE).Some? &&
      OptObject(OptObject(json.value, STATE).value, BENTO).Some? &&
      OptString(OptObject(OptObject(json.value, STATE).value, BENTO).value, BENTO_UUID) == active.value.uuid
    ensures React(active, json, intKey).Apply? ==>
      var state := OptObject(json.value, STATE).value;
      React(active, json, intKey) == Apply(DecodeState(state), KeyOrZero(intKey)) &&
      DecodeState(state).uuid == active.value.uuid
  {
  }

  /** An entry for another Bento leaves the state alone but is still notified. */
  lemma ForeignBentoOnlyNotifies(b: Bento, json: Doc, bentoObj: Doc, intKey: Option<Int32>)
    requires OptObject(json, STATE).Some?
    requires OptObject(OptObject(json, STATE).value, BENTO) == Some(bentoObj)
    requires OptString(bentoObj, BENTO_UUID) != b.uuid
    ensures React(Some(b), Some(json), intKey) == NotifyOnly
  {
  }

  /** Applying the same entry a second time changes nothing further. */
  lemma ReapplyIsIdempotent(active: Option<Bento>, json: Option<Doc>, intKey: Option<Int32>)
    requires React(active, json, intKey).Apply?
    ensures React(Some(React(active, json, intKey).bento), json, intKey) == React(active, json, intKey)
  {
    AppliesExactlyOnMatchingUuid(active, json, intKey);
  }

  /** The input that makes onUpdate as written dereference null. */
  lemma ScalarStateCrashes(b: Bento)
    ensures ReactAsWritten(Some(b), Some(map[STATE := JInt(1)]), None) == Crash
  {
  }

  /** The corrected reaction agrees with the code wherever the code survives. */
  lemma ReactAgreesWhereAsWrittenSurvives(active: Option<Bento>, json: Option<Doc>, intKey: Option<Int32>)
    ensures ReactAsWritten(active, json, intKey) != Crash ==>
      React(active, json, intKey) == ReactAsWritten(active, json, intKey)
    ensures ReactAsWritten(active, json, intKey) == Crash ==>
      React(active, json, intKey) == NotifyOnly
  {
  }
}
