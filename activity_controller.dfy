/**
 * The daily activity handlers of server/controllers/activityController.ts:
 * the UTC day-key normalizer, the activity-type dispatch that builds an
 * update document, the per-day upsert, and the read with its zero fallback.
 *
 * The handlers read the clock; here each clock read is a parameter. The
 * request body's fields arrive as JSON values.
 */
module ActivityController {
  import opened Wrappers
  import opened EcmaTime
  import opened ActivityModel

  /** getStartOfDayUTC: the time value truncated to its UTC midnight (setUTCHours(0, 0, 0, 0)). */
  function StartOfDayUtc(t: int): (r: int)
    ensures IsMidnight(r)
    ensures r <= t < r + MsPerDay
  {
    t - TimeWithinDay(t)
  }

  /** The day key is the only UTC midnight within the day before and including t. */
  lemma StartOfDayUnique(t: int, d: int)
    requires IsMidnight(d) && d <= t < d + MsPerDay
    ensures d == StartOfDayUtc(t)
  {
  }

  /** Normalizing a day key again changes nothing. */
  lemma StartOfDayIdempotent(t: int)
    ensures StartOfDayUtc(StartOfDayUtc(t)) == StartOfDayUtc(t)
  {
  }

  /** Two instants get the same day key exactly when they fall on the same UTC day. */
  lemma SameDayKey(t1: int, t2: int)
    ensures StartOfDayUtc(t1) == StartOfDayUtc(t2) <==> Day(t1) == Day(t2)
  {
  }

  /** A JSON value from the request body; Undefined is a field the body does not have. */
  datatype JsonValue =
    | Undefined
    | Null
    | Bool(b: bool)
    | Num(n: real)
    | Str(s: string)
    | Structured

  /** The JavaScript falsy values a JSON body can carry. */
  predicate Falsy(v: JsonValue)
  {
    v.Undefined? || v.Null? || v == Bool(false) || v == Num(0.0) || v == Str("")
  }

  /**
   * String.prototype.toLowerCase on one character, for every character whose
   * lower-case form is an ASCII letter: A-Z, and the Kelvin sign, which
   * lower-cases to k. Any other character is kept; its lower-case form is not
   * ASCII, so it cannot make a string equal one of the activity names.
   */
  function LowerChar(c: char): char
  {
    if 'A' <= c <= 'Z' then (c as int + 32) as char
    else if c == 'K' then 'k'
    else c
  }

  function ToLower(s: string): (r: string)
    ensures |r| == |s|
    ensures forall i :: 0 <= i < |s| ==> r[i] == LowerChar(s[i])
  {
    if s == [] then [] else [LowerChar(s[0])] + ToLower(s[1..])
  }

  /** Lower-casing twice is lower-casing once. */
  lemma ToLowerIdempotent(s: string)
    ensures ToLower(ToLower(s)) == ToLower(s)
  {
  }

  /** The six activity types the controller accepts. */
  datatype ActivityKind = Water | Sleep | Meditation | Exercise | CheckIn | CheckOut

  function Name(k: ActivityKind): string
  {
    match k
    case Water => "water"
    case Sleep => "sleep"
    case Meditation => "meditation"
    case Exercise => "exercise"
    case CheckIn => "checkin"
    case CheckOut => "checkout"
  }

  /** The switch over activityType.toLowerCase(): the kind whose name the lower-cased string is, if any. */
  function ParseKind(s: string): (r: Option<ActivityKind>)
    ensures r.Some? ==> ToLower(s) == Name(r.value)
    ensures r.None? ==> forall k :: ToLower(s) != Name(k)
  {
    var l := ToLower(s);
    if l == "water" then Some(Water)
    else if l == "sleep" then Some(Sleep)
    else if l == "meditation" then Some(Meditation)
    else if l == "exercise" then Some(Exercise)
    else if l == "checkin" then Some(CheckIn)
    else if l == "checkout" then Some(CheckOut)
    else None
  }

  /** Dispatch ignores case: a string selects kind k exactly when it lower-cases to k's name. */
  lemma ParseKindIgnoresCase(s: string, k: ActivityKind)
    ensures ParseKind(s) == Some(k) <==> ToLower(s) == Name(k)
    ensures ParseKind(ToLower(s)) == ParseKind(s)
  {
    ToLowerIdempotent(s);
  }

  predicate IsGauge(k: ActivityKind)
  {
    k == Sleep || k == Meditation || k == Exercise
  }

  /** The default a gauge takes when the body carries no usable value. */
  function GaugeDefault(k: ActivityKind): real
    requires IsGauge(k)
  {
    match k
    case Sleep => 8.0
    case Meditation => 10.0
    case Exercise => 30.0
  }

  /** `typeof value === 'number' && value >= 0 ? value : default` */
  function GaugeValue(value: JsonValue, default: real): (r: real)
    ensures value.Num? && value.n >= 0.0 ==> r == value.n
    ensures !(value.Num? && value.n >= 0.0) ==> r == default
  {
    if value.Num? && value.n >= 0.0 then value.n else default
  }

  /** Why logActivity answers without touching the collection. */
  datatype LogError =
    | MissingType   // 400 "Activity type is required."
    | InvalidType   // 400 "Invalid activity type provided."
    | ServerError   // 500: toLowerCase is not a function on a non-string type

  /** The validation and switch of logActivity: the update document for the request, or the error. */
  function BuildUpdate(activityType: JsonValue, value: JsonValue, eventClock: int): (r: Result<Update, LogError>)
    ensures r == Failure(MissingType) <==> Falsy(activityType)
    ensures r == Failure(ServerError) <==> !Falsy(activityType) && !activityType.Str?
    ensures r == Failure(InvalidType) <==> activityType.Str? && activityType.s != "" && ParseKind(activityType.s).None?
    ensures r.Success? ==> NonNegativeUpdate(r.value)
  {
    if Falsy(activityType) then Failure(MissingType)
    else if !activityType.Str? then Failure(ServerError)
    else
      match ParseKind(activityType.s)
      case None => Failure(InvalidType)
      case Some(Water) => Success(IncWater)
      case Some(Sleep) => Success(SetSleep(GaugeValue(value, GaugeDefault(Sleep))))
      case Some(Meditation) => Success(SetMeditation(GaugeValue(value, GaugeDefault(Meditation))))
      case Some(Exercise) => Success(SetExercise(GaugeValue(value, GaugeDefault(Exercise))))
      case Some(CheckIn) => Success(SetCheckIn(eventClock))
      case Some(CheckOut) => Success(SetCheckOut(eventClock))
  }

  /** Every stored record is keyed by a UTC midnight. */
  ghost predicate DayKeyed(records: map<Key, Record>)
  {
    forall k :: k in records ==> IsMidnight(k.date)
  }

  /**
   * logActivity: validates the request, builds the update and applies it as
   * one upsert keyed by (user, today's UTC midnight). `keyClock` is the clock
   * read that fixes the day key, `eventClock` the one that stamps check-in and
   * check-out. On an error the collection is untouched. The stamps reach the
   * stored record only when the collection's schema declares them.
   */
  method LogActivity(coll: ActivityCollection, user: UserId, activityType: JsonValue, value: JsonValue,
                     keyClock: int, eventClock: int) returns (res: Result<Record, LogError>)
    requires coll.Valid() && DayKeyed(coll.records)
    modifies coll
    ensures coll.Valid() && DayKeyed(coll.records)
    ensures BuildUpdate(activityType, value, eventClock).Failure? ==>
      && res == Failure(BuildUpdate(activityType, value, eventClock).error)
      && coll.records == old(coll.records) && coll.nextId == old(coll.nextId)
    ensures BuildUpdate(activityType, value, eventClock).Success? ==>
      var key := Key(user, StartOfDayUtc(keyClock));
      var r := Upserted(old(coll.records), old(coll.nextId), key, BuildUpdate(activityType, value, eventClock).value,
                        coll.stampsDeclared);
      && res == Success(r)
      && coll.records == old(coll.records)[key := r]
      && coll.nextId == if key in old(coll.records) then old(coll.nextId) else old(coll.nextId) + 1
  {
    var todayStart := StartOfDayUtc(keyClock);
    var update := BuildUpdate(activityType, value, eventClock);
    if update.Failure? {
      return Failure(update.error);
    }
    var r := coll.FindOneAndUpsert(Key(user, todayStart), update.value);
    res := Success(r);
  }

  /** The response for a day with no stored record: all zero, never saved. */
  function ZeroRecord(user: UserId, date: int): (r: Record)
    ensures r.id.None? && KeyOf(r) == Key(user, date) && AtDefaults(r)
  {
    Record(None, user, date, 0, 0.0, 0.0, 0.0, None, None)
  }

  /** getActivityLog: today's stored record, or the zero record; the collection is not changed. */
  method GetActivityLog(coll: ActivityCollection, user: UserId, clock: int) returns (r: Record)
    requires coll.Valid()
    ensures KeyOf(r) == Key(user, StartOfDayUtc(clock))
    ensures Key(user, StartOfDayUtc(clock)) in coll.records ==> r == coll.records[Key(user, StartOfDayUtc(clock))]
    ensures r.id.None? <==> Key(user, StartOfDayUtc(clock)) !in coll.records
    ensures r.id.None? ==> AtDefaults(r)
  {
    var key := Key(user, StartOfDayUtc(clock));
    if key in coll.records {
      r := coll.records[key];
    } else {
      r := ZeroRecord(user, key.date);
    }
  }

  /** The zero record differs from the record an upsert would insert only in having no id. */
  lemma ZeroRecordIsUnsavedDefault(id: RecordId, user: UserId, date: int)
    ensures ZeroRecord(user, date) == NewRecord(id, user, date).(id := None)
  {
  }

  /** Applies update documents in order. */
  function ApplyAll(r: Record, us: seq<Update>): Record
    decreases |us|
  {
    if us == [] then r else ApplyAll(ApplyUpdate(r, us[0]), us[1..])
  }

  function Repeat(u: Update, n: nat): (us: seq<Update>)
    ensures |us| == n && forall i :: 0 <= i < n ==> us[i] == u
  {
    if n == 0 then [] else [u] + Repeat(u, n - 1)
  }

  /** n water events add exactly n glasses and change nothing else. */
  lemma {:induction false} RepeatedWater(r: Record, n: nat)
    ensures ApplyAll(r, Repeat(IncWater, n)) == r.(waterGlasses := r.waterGlasses + n)
    decreases n
  {
    if n > 0 {
      var us := Repeat(IncWater, n);
      assert us[1..] == Repeat(IncWater, n - 1);
      RepeatedWater(ApplyUpdate(r, IncWater), n - 1);
    }
  }

  /** n water events on a day without a record leave waterGlasses == n and every other field at its default. */
  lemma WaterOnFreshDay(id: RecordId, user: UserId, date: int, n: nat)
    ensures ApplyAll(NewRecord(id, user, date), Repeat(IncWater, n)).waterGlasses == n
    ensures ApplyAll(NewRecord(id, user, date), Repeat(IncWater, n)) == NewRecord(id, user, date).(waterGlasses := n)
  {
    RepeatedWater(NewRecord(id, user, date), n);
  }

  /** What each accepted activity type does to a record: only its own field changes. */
  lemma UpdateEffect(r: Record, activityType: JsonValue, value: JsonValue, eventClock: int)
    requires BuildUpdate(activityType, value, eventClock).Success?
    ensures var r' := ApplyUpdate(r, BuildUpdate(activityType, value, eventClock).value);
      var k := ParseKind(activityType.s).value;
      && activityType.Str?
      && r'.id == r.id && KeyOf(r') == KeyOf(r)
      && r'.waterGlasses == (if k == Water then r.waterGlasses + 1 else r.waterGlasses)
      && r'.sleepHours == (if k == Sleep then GaugeValue(value, GaugeDefault(k)) else r.sleepHours)
      && r'.meditationMinutes == (if k == Meditation then GaugeValue(value, GaugeDefault(k)) else r.meditationMinutes)
      && r'.exerciseMinutes == (if k == Exercise then GaugeValue(value, GaugeDefault(k)) else r.exerciseMinutes)
      && r'.checkInTime == (if k == CheckIn then Some(eventClock) else r.checkInTime)
      && r'.checkOutTime == (if k == CheckOut then Some(eventClock) else r.checkOutTime)
  {
  }

  /** Gauges and stamps are overwritten: applying one twice is applying it once, and the last write wins. */
  lemma OverwriteLastWins(r: Record, u: Update, v: Update)
    requires !u.IncWater? && !v.IncWater?
    requires u.SetSleep? == v.SetSleep? && u.SetMeditation? == v.SetMeditation?
    requires u.SetExercise? == v.SetExercise? && u.SetCheckIn? == v.SetCheckIn?
    ensures ApplyUpdate(ApplyUpdate(r, u), u) == ApplyUpdate(r, u)
    ensures ApplyUpdate(ApplyUpdate(r, u), v) == ApplyUpdate(r, v)
  {
  }

  /**
   * With a schema that declares the stamps, a check-in upsert stores the event
   * clock, and when both clock reads fall on one UTC day the stamp lies within
   * the day of the record it is stored in.
   */
  lemma CheckInWithinDay(records: map<Key, Record>, nextId: RecordId, user: UserId, keyClock: int, eventClock: int)
    requires KeyedUniquely(records)
    requires Day(keyClock) == Day(eventClock)
    ensures var r := Upserted(records, nextId, Key(user, StartOfDayUtc(keyClock)), SetCheckIn(eventClock), true);
      r.checkInTime == Some(eventClock) && StartOfDayUtc(eventClock) == r.date
  {
    SameDayKey(keyClock, eventClock);
  }

  /**
   * With the schema as written, a check-in or check-out upsert leaves the
   * record's stamps as they were, and on a day without a record it inserts
   * only the default record.
   */
  lemma StampDroppedAsWritten(records: map<Key, Record>, nextId: RecordId, key: Key, t: int, checkIn: bool)
    ensures var u := if checkIn then SetCheckIn(t) else SetCheckOut(t);
      var r := Upserted(records, nextId, key, u, false);
      && (key in records ==> r == records[key])
      && (key !in records ==> r == NewRecord(nextId, key.user, key.date) && r.checkInTime.None? && r.checkOutTime.None?)
  {
  }

  /** A check-in on a new day with the schema as written: one record is stored, without a stamp. */
  method CheckInAsWritten(user: UserId, clock: int) returns (stamp: Option<int>, stored: nat)
    ensures stamp.None? && stored == 1
  {
    var coll := new ActivityCollection(false);
    CheckInAccepted(Undefined, clock);
    var r := LogActivity(coll, user, Str("checkin"), Undefined, clock, clock);
    stamp := r.value.checkInTime;
    stored := |coll.records|;
  }

  /** The same check-in when the schema declares the stamps: the stored record carries the clock. */
  method CheckInWithDeclaredStamps(user: UserId, clock: int) returns (stamp: Option<int>, stored: nat)
    ensures stamp == Some(clock) && stored == 1
  {
    var coll := new ActivityCollection(true);
    CheckInAccepted(Undefined, clock);
    var r := LogActivity(coll, user, Str("checkin"), Undefined, clock, clock);
    stamp := r.value.checkInTime;
    stored := |coll.records|;
  }

  /** "checkin" is accepted and stamps the event clock. */
  lemma CheckInAccepted(value: JsonValue, t: int)
    ensures BuildUpdate(Str("checkin"), value, t) == Success(SetCheckIn(t))
  {
  }

  /** An unknown type is rejected whatever the value. */
  lemma BogusTypeRejected(value: JsonValue, t: int)
    ensures BuildUpdate(Str("bogus"), value, t) == Failure(InvalidType)
  {
  }

  /** A negative sleep value falls back to the default of 8 hours. */
  lemma NegativeSleepDefaults(t: int)
    ensures BuildUpdate(Str("sleep"), Num(-1.0), t) == Success(SetSleep(8.0))
  {
  }

  /** The upper-case spelling of water is accepted. */
  lemma UpperCaseWater(value: JsonValue, t: int)
    ensures BuildUpdate(Str("WATER"), value, t) == Success(IncWater)
  {
  }

  /** Three water events on a new day leave one record for the user and day, holding three glasses. */
  method ThreeWaterEvents(user: UserId, clock: int) returns (glasses: int, stored: nat)
    ensures glasses == 3 && stored == 1
  {
    var coll := new ActivityCollection(false);
    UpperCaseWater(Undefined, clock);
    var r1 := LogActivity(coll, user, Str("WATER"), Undefined, clock, clock);
    var r2 := LogActivity(coll, user, Str("WATER"), Undefined, clock, clock);
    var r3 := LogActivity(coll, user, Str("WATER"), Undefined, clock, clock);
    var key := Key(user, StartOfDayUtc(clock));
    assert coll.records == map[key := r3.value];
    glasses := r3.value.waterGlasses;
    stored := |coll.records|;
  }
}
