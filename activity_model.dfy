/**
 * The Activity record of server/models/Activity.ts and the collection that
 * stores it: one record per (user, day) pair, enforced by the unique compound
 * index, and Mongoose's atomic find-one-and-update with upsert, which under
 * strict mode drops the paths the schema does not declare.
 */
module ActivityModel {
  import opened Wrappers

  /** A user's ObjectId. */
  type UserId = nat

  /** A record's own ObjectId (`_id`), assigned on insert. */
  type RecordId = nat

  /**
   * One user's activity on one day. `id` is None only for a record that was
   * never stored. The check-in and check-out stamps are time values.
   */
  datatype Record = Record(
    id: Option<RecordId>,
    userId: UserId,
    date: int,
    waterGlasses: int,
    sleepHours: real,
    meditationMinutes: real,
    exerciseMinutes: real,
    checkInTime: Option<int>,
    checkOutTime: Option<int>)

  /** The fields of the unique compound index: userId and date. */
  datatype Key = Key(user: UserId, date: int)

  function KeyOf(r: Record): Key
  {
    Key(r.userId, r.date)
  }

  /** All four numeric fields at their schema default 0, and no stamps. */
  predicate AtDefaults(r: Record)
  {
    r.waterGlasses == 0 && r.sleepHours == 0.0 && r.meditationMinutes == 0.0
    && r.exerciseMinutes == 0.0 && r.checkInTime.None? && r.checkOutTime.None?
  }

  predicate NonNegative(r: Record)
  {
    r.waterGlasses >= 0 && r.sleepHours >= 0.0 && r.meditationMinutes >= 0.0 && r.exerciseMinutes >= 0.0
  }

  /** The record an upsert inserts before applying its update (setDefaultsOnInsert). */
  function NewRecord(id: RecordId, user: UserId, date: int): (r: Record)
    ensures r.id == Some(id) && KeyOf(r) == Key(user, date)
    ensures AtDefaults(r)
  {
    Record(Some(id), user, date, 0, 0.0, 0.0, 0.0, None, None)
  }

  /**
   * The update documents the activity controller sends: `$inc` of the water
   * counter, or an overwrite of one gauge or one stamp.
   */
  datatype Update =
    | IncWater
    | SetSleep(hours: real)
    | SetMeditation(minutes: real)
    | SetExercise(minutes: real)
    | SetCheckIn(at: int)
    | SetCheckOut(at: int)

  predicate NonNegativeUpdate(u: Update)
  {
    match u
    case SetSleep(h) => h >= 0.0
    case SetMeditation(m) => m >= 0.0
    case SetExercise(m) => m >= 0.0
    case _ => true
  }

  /** The effect of one update document on a stored record. */
  function ApplyUpdate(r: Record, u: Update): (r': Record)
    ensures r'.id == r.id && KeyOf(r') == KeyOf(r)
    ensures NonNegative(r) && NonNegativeUpdate(u) ==> NonNegative(r')
  {
    match u
    case IncWater => r.(waterGlasses := r.waterGlasses + 1)
    case SetSleep(h) => r.(sleepHours := h)
    case SetMeditation(m) => r.(meditationMinutes := m)
    case SetExercise(m) => r.(exerciseMinutes := m)
    case SetCheckIn(t) => r.(checkInTime := Some(t))
    case SetCheckOut(t) => r.(checkOutTime := Some(t))
  }

  /** The stamp updates set paths the schema as written does not declare. */
  predicate SetsStamp(u: Update)
  {
    u.SetCheckIn? || u.SetCheckOut?
  }

  /**
   * The update as the collection applies it. Mongoose's strict mode, on by
   * default, drops a path the schema does not declare; `stampsDeclared` says
   * whether the schema declares checkInTime and checkOutTime (false for the
   * schema as written).
   */
  function ApplyToSchema(r: Record, u: Update, stampsDeclared: bool): (r': Record)
    ensures r'.id == r.id && KeyOf(r') == KeyOf(r)
    ensures !stampsDeclared && SetsStamp(u) ==> r' == r
    ensures stampsDeclared || !SetsStamp(u) ==> r' == ApplyUpdate(r, u)
  {
    if !stampsDeclared && SetsStamp(u) then r else ApplyUpdate(r, u)
  }

  /** The record a find-one-and-update with upsert leaves under key. */
  function Upserted(records: map<Key, Record>, nextId: RecordId, key: Key, u: Update, stampsDeclared: bool): (r: Record)
    ensures key in records ==> r.id == records[key].id && KeyOf(r) == KeyOf(records[key])
    ensures key !in records ==> r.id == Some(nextId) && KeyOf(r) == key
    ensures key !in records && !stampsDeclared && SetsStamp(u) ==> r == NewRecord(nextId, key.user, key.date)
  {
    ApplyToSchema(if key in records then records[key] else NewRecord(nextId, key.user, key.date), u, stampsDeclared)
  }

  /** The store invariant the unique index provides: each record sits under its own (userId, date). */
  ghost predicate KeyedUniquely(records: map<Key, Record>)
  {
    forall k :: k in records ==> KeyOf(records[k]) == k
  }

  /** Under the invariant no two stored records share a (userId, date) pair. */
  lemma AtMostOnePerKey(records: map<Key, Record>, k1: Key, k2: Key)
    requires KeyedUniquely(records)
    requires k1 in records && k2 in records && k1 != k2
    ensures KeyOf(records[k1]) != KeyOf(records[k2])
  {
  }

  /** The Activity collection. */
  class ActivityCollection {
    var records: map<Key, Record>
    var nextId: RecordId
    /** Whether the schema declares checkInTime and checkOutTime. */
    const stampsDeclared: bool

    ghost predicate Valid()
      reads this
    {
      && KeyedUniquely(records)
      && (forall k :: k in records ==>
            records[k].id.Some? && records[k].id.value < nextId && NonNegative(records[k]))
      && (forall k1, k2 :: k1 in records && k2 in records && k1 != k2 ==> records[k1].id != records[k2].id)
    }

    constructor (stampsDeclared: bool)
      ensures Valid() && records == map[] && this.stampsDeclared == stampsDeclared
    {
      records := map[];
      nextId := 0;
      this.stampsDeclared := stampsDeclared;
    }

    /**
     * findOneAndUpdate(key, u, { new: true, upsert: true, setDefaultsOnInsert: true }):
     * as one atomic step, updates the record under key, or inserts a default
     * record with a fresh id and updates that; returns the record afterwards.
     */
    method FindOneAndUpsert(key: Key, u: Update) returns (r: Record)
      requires Valid() && NonNegativeUpdate(u)
      modifies this
      ensures Valid()
      ensures r == Upserted(old(records), old(nextId), key, u, stampsDeclared)
      ensures records == old(records)[key := r]
      ensures nextId == if key in old(records) then old(nextId) else old(nextId) + 1
    {
      var base: Record;
      if key in records {
        base := records[key];
      } else {
        base := NewRecord(nextId, key.user, key.date);
        nextId := nextId + 1;
      }
      r := ApplyToSchema(base, u, stampsDeclared);
      records := records[key := r];
    }
  }
}
