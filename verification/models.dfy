/** The relational schema of the backend (backend/app/models.py) as an in-memory database:
    four tables keyed by auto-increment id, the column constraints the schema declares
    (NOT NULL, VARCHAR lengths, UNIQUE indexes, foreign keys) checked on insert, and the
    `ON DELETE CASCADE` rules applied on delete.

    Server-side `now()` defaults are the parameter `now`. A nullable-false column the caller
    supplies is an `Option` whose `None` is SQL NULL. */
module Models {
  import opened Common

  const PhoneLength: nat := 20
  const H3HexLength: nat := 16
  const TitleLength: nat := 200
  const WeatherTriggerLength: nat := 50

  datatype Device = Device(id: nat, phone: string, createdAt: real)

  datatype DevicePing = DevicePing(id: nat, deviceId: nat, h3Hex: string, ts: real)

  datatype Offer = Offer(id: nat, h3Hex: string, title: string, body: string,
                         affluentOnly: bool, weatherTrigger: Option<string>)

  datatype DeliveredOffer = DeliveredOffer(id: nat, deviceId: nat, offerId: nat, sentAt: real)

  /** The next value of each table's id sequence. */
  datatype Sequences = Sequences(device: nat, ping: nat, offer: nat, delivered: nat)

  datatype Db = Db(devices: map<nat, Device>, pings: map<nat, DevicePing>,
                   offers: map<nat, Offer>, delivered: map<nat, DeliveredOffer>,
                   next: Sequences)

  /** The database's refusal of a statement, named after the violated constraint. */
  datatype DbError =
    | NotNullViolation(column: string)
    | ValueTooLong(column: string, limit: nat)
    | UniqueViolation(index: string)
    | ForeignKeyViolation(column: string)

  const EmptyDb: Db := Db(map[], map[], map[], map[], Sequences(1, 1, 1, 1))

  /** Every row sits under its own id, which its sequence has already handed out. */
  predicate Keyed(db: Db) {
    && (forall k | k in db.devices :: db.devices[k].id == k && k < db.next.device)
    && (forall k | k in db.pings :: db.pings[k].id == k && k < db.next.ping)
    && (forall k | k in db.offers :: db.offers[k].id == k && k < db.next.offer)
    && (forall k | k in db.delivered :: db.delivered[k].id == k && k < db.next.delivered)
  }

  /** The VARCHAR bounds: phone 20, h3_hex 16, title 200, weather_trigger 50. */
  predicate WithinLengths(db: Db) {
    && (forall k | k in db.devices :: |db.devices[k].phone| <= PhoneLength)
    && (forall k | k in db.pings :: |db.pings[k].h3Hex| <= H3HexLength)
    && (forall k | k in db.offers ::
          && |db.offers[k].h3Hex| <= H3HexLength
          && |db.offers[k].title| <= TitleLength
          && (db.offers[k].weatherTrigger.Some? ==> |db.offers[k].weatherTrigger.value| <= WeatherTriggerLength))
  }

  /** `devices.phone` is UNIQUE. */
  predicate PhonesUnique(db: Db) {
    forall a, b | a in db.devices && b in db.devices && a != b :: db.devices[a].phone != db.devices[b].phone
  }

  /** `idx_delivered_offers_unique`: a device receives an offer at most once. */
  predicate DeliveriesUnique(db: Db) {
    forall a, b | a in db.delivered && b in db.delivered && a != b ::
      db.delivered[a].deviceId != db.delivered[b].deviceId || db.delivered[a].offerId != db.delivered[b].offerId
  }

  /** Every foreign key refers to an existing row. */
  predicate ReferencesExist(db: Db) {
    && (forall k | k in db.pings :: db.pings[k].deviceId in db.devices)
    && (forall k | k in db.delivered :: db.delivered[k].deviceId in db.devices && db.delivered[k].offerId in db.offers)
  }

  predicate Valid(db: Db) {
    Keyed(db) && WithinLengths(db) && PhonesUnique(db) && DeliveriesUnique(db) && ReferencesExist(db)
  }

  lemma EmptyDbValid()
    ensures Valid(EmptyDb)
  {
  }

  /** The value PostgreSQL stores when `s` is assigned to a VARCHAR(n) column: `s` itself when
      it fits, its first `n` characters when everything beyond them is a space, and nothing (the
      statement fails) otherwise. */
  function Varchar(s: string, n: nat): (r: Option<string>)
    ensures r.Some? <==> |s| <= n || forall k | n <= k < |s| :: s[k] == ' '
    ensures r.Some? ==> && |r.value| == (if |s| <= n then |s| else n)
                        && r.value == s[..|r.value|]
                        && (|s| <= n ==> r.value == s)
                        && (forall k | |r.value| <= k < |s| :: s[k] == ' ')
  {
    if |s| <= n then Some(s)
    else if forall k | n <= k < |s| :: s[k] == ' ' then Some(s[..n])
    else None
  }

  /** A value padded past the limit with spaces only is stored without the padding. */
  lemma {:induction false} PaddingTruncated(s: string, pad: string, n: nat)
    requires |s| == n && forall k | 0 <= k < |pad| :: pad[k] == ' '
    ensures Varchar(s + pad, n) == Some(s)
  {
    var v := s + pad;
    if pad != [] {
      forall k | n <= k < |v|
        ensures v[k] == ' '
      {
        assert v[k] == pad[k - n];
      }
    }
    assert v[..n] == s;
  }

  /** A value longer than the limit with a character other than a space past it is refused. */
  lemma OverflowRefused(s: string, n: nat, k: nat)
    requires n <= k < |s| && s[k] != ' '
    ensures Varchar(s, n).None?
  {
  }

  predicate PhoneTaken(db: Db, phone: string) {
    exists k | k in db.devices :: db.devices[k].phone == phone
  }

  /** A 20-character phone followed by spaces is stored as the 20 characters, so it collides
      with that phone already registered instead of being refused as too long. */
  lemma PaddedPhoneCollides(db: Db, phone: string, pad: string, now: real)
    requires |phone| == PhoneLength && forall k | 0 <= k < |pad| :: pad[k] == ' '
    requires PhoneTaken(db, phone)
    ensures InsertDevice(db, Some(phone + pad), now).id == Err(UniqueViolation("ix_devices_phone"))
  {
    PaddingTruncated(phone, pad, PhoneLength);
  }

  /** One INSERT: the database after the statement, and the new row's id or the refusal. */
  datatype Inserted = Inserted(db: Db, id: Result<nat, DbError>)

  /** A refusal raised while the statement is planned. The driver sends the values as literals,
      and the VARCHAR length check on a literal is folded as a constant before execution starts,
      so no row is built and no id is drawn. The id column's SERIAL default calls `nextval`
      while the row is built, before NOT NULL, UNIQUE and foreign keys are checked, and a failed
      statement does not give the value back: every other refusal leaves the sequence moved. */
  predicate PlanTime(e: DbError) {
    e.ValueTooLong?
  }

  /** The refusal was raised at plan time, so the statement drew no id. */
  predicate RefusedAtPlan(r: Inserted) {
    r.id.Err? && PlanTime(r.id.error)
  }

  /** `INSERT INTO devices (phone)`, with `created_at` from the server clock. The UNIQUE index
      sees the phone as stored, after any space padding past 20 characters is cut. */
  function InsertDevice(db: Db, phone: Option<string>, now: real): (r: Inserted)
    ensures r.id.Ok? <==> && phone.Some? && Varchar(phone.value, PhoneLength).Some?
                          && !PhoneTaken(db, Varchar(phone.value, PhoneLength).value)
    ensures phone.Some? && Varchar(phone.value, PhoneLength).None? ==> r.id == Err(ValueTooLong("phone", PhoneLength))
    ensures RefusedAtPlan(r) <==> phone.Some? && Varchar(phone.value, PhoneLength).None?
    ensures r.db.next == if RefusedAtPlan(r) then db.next else db.next.(device := db.next.device + 1)
    ensures r.id.Ok? ==> && r.id.value == db.next.device
                         && r.db.devices == db.devices[r.id.value := Device(r.id.value, Varchar(phone.value, PhoneLength).value, now)]
                         && r.db.pings == db.pings && r.db.offers == db.offers && r.db.delivered == db.delivered
    ensures r.id.Err? ==> r.db == db.(next := r.db.next)
    ensures Valid(db) ==> Valid(r.db) && (r.id.Ok? ==> r.id.value !in db.devices)
  {
    var id := db.next.device;
    var drawn := db.(next := db.next.(device := id + 1));
    DrawKeepsValid(db, drawn.next);
    if phone.None? then Inserted(drawn, Err(NotNullViolation("phone")))
    else
      match Varchar(phone.value, PhoneLength)
      case None => Inserted(db, Err(ValueTooLong("phone", PhoneLength)))
      case Some(stored) =>
        if PhoneTaken(db, stored) then Inserted(drawn, Err(UniqueViolation("ix_devices_phone")))
        else
          DeviceKeepsValid(db, Device(id, stored, now));
          Inserted(drawn.(devices := db.devices[id := Device(id, stored, now)]), Ok(id))
  }

  /** A refused insert spends an id unless it was refused at plan time: after a NULL or a
      phone already in use, the next device inserted gets the id after the one drawn; after a
      phone too long it gets the very id the refused statement would have had. */
  lemma RefusedInsertSpendsId(db: Db, phone: Option<string>, other: Option<string>, now: real, later: real)
    requires InsertDevice(db, phone, now).id.Err?
    requires InsertDevice(InsertDevice(db, phone, now).db, other, later).id.Ok?
    ensures InsertDevice(InsertDevice(db, phone, now).db, other, later).id.value
            == if RefusedAtPlan(InsertDevice(db, phone, now)) then db.next.device else db.next.device + 1
  {
  }

  /** On the empty database: "a", "a" again and then "b" gives "b" id 3. */
  lemma IdGapWitness()
    ensures var first := InsertDevice(EmptyDb, Some("a"), 0.0);
            var again := InsertDevice(first.db, Some("a"), 1.0);
            && first.id == Ok(1)
            && again.id == Err(UniqueViolation("ix_devices_phone"))
            && InsertDevice(again.db, Some("b"), 2.0).id == Ok(3)
  {
  }

  /** On the empty database: a 21-digit phone and then "b" gives "b" id 1. */
  lemma NoGapAfterLengthRefusal()
    ensures var long := InsertDevice(EmptyDb, Some("123456789012345678901"), 0.0);
            && long.id == Err(ValueTooLong("phone", PhoneLength))
            && InsertDevice(long.db, Some("b"), 1.0).id == Ok(1)
  {
    OverflowRefused("123456789012345678901", PhoneLength, 20);
  }

  /** `INSERT INTO device_pings (device_id, h3_hex, ts)`. */
  function InsertPing(db: Db, deviceId: Option<nat>, h3Hex: Option<string>, ts: Option<real>): (r: Inserted)
    ensures r.id.Ok? <==> && deviceId.Some? && h3Hex.Some? && ts.Some?
                          && Varchar(h3Hex.value, H3HexLength).Some? && deviceId.value in db.devices
    ensures h3Hex.Some? && Varchar(h3Hex.value, H3HexLength).None? ==> r.id == Err(ValueTooLong("h3_hex", H3HexLength))
    ensures RefusedAtPlan(r) <==> h3Hex.Some? && Varchar(h3Hex.value, H3HexLength).None?
    ensures r.db.next == if RefusedAtPlan(r) then db.next else db.next.(ping := db.next.ping + 1)
    ensures r.id.Ok? ==> && r.id.value == db.next.ping
                         && r.db.pings == db.pings[r.id.value := DevicePing(r.id.value, deviceId.value,
                                                                            Varchar(h3Hex.value, H3HexLength).value, ts.value)]
                         && r.db.devices == db.devices && r.db.offers == db.offers && r.db.delivered == db.delivered
    ensures r.id.Err? ==> r.db == db.(next := r.db.next)
    ensures Valid(db) ==> Valid(r.db) && (r.id.Ok? ==> r.id.value !in db.pings)
  {
    var id := db.next.ping;
    var drawn := db.(next := db.next.(ping := id + 1));
    DrawKeepsValid(db, drawn.next);
    if h3Hex.Some? && Varchar(h3Hex.value, H3HexLength).None? then
      Inserted(db, Err(ValueTooLong("h3_hex", H3HexLength)))
    else if deviceId.None? then Inserted(drawn, Err(NotNullViolation("device_id")))
    else if h3Hex.None? then Inserted(drawn, Err(NotNullViolation("h3_hex")))
    else if ts.None? then Inserted(drawn, Err(NotNullViolation("ts")))
    else
      var hex := Varchar(h3Hex.value, H3HexLength).value;
      if deviceId.value !in db.devices then Inserted(drawn, Err(ForeignKeyViolation("device_id")))
      else
        PingKeepsValid(db, DevicePing(id, deviceId.value, hex, ts.value));
        Inserted(drawn.(pings := db.pings[id := DevicePing(id, deviceId.value, hex, ts.value)]), Ok(id))
  }

  /** `INSERT INTO offers`: `affluent_only` left out takes its default, False. */
  function InsertOffer(db: Db, h3Hex: Option<string>, title: Option<string>, body: Option<string>,
                       affluentOnly: Option<bool>, weatherTrigger: Option<string>): (r: Inserted)
    ensures r.id.Ok? <==> && h3Hex.Some? && title.Some? && body.Some?
                          && Varchar(h3Hex.value, H3HexLength).Some? && Varchar(title.value, TitleLength).Some?
                          && (weatherTrigger.Some? ==> Varchar(weatherTrigger.value, WeatherTriggerLength).Some?)
    ensures RefusedAtPlan(r) <==> || (h3Hex.Some? && Varchar(h3Hex.value, H3HexLength).None?)
                                  || (title.Some? && Varchar(title.value, TitleLength).None?)
                                  || (weatherTrigger.Some? && Varchar(weatherTrigger.value, WeatherTriggerLength).None?)
    ensures r.db.next == if RefusedAtPlan(r) then db.next else db.next.(offer := db.next.offer + 1)
    ensures r.id.Ok? ==> && r.id.value == db.next.offer
                         && r.db.offers == db.offers[r.id.value := Offer(r.id.value, Varchar(h3Hex.value, H3HexLength).value,
                                                                         Varchar(title.value, TitleLength).value, body.value,
                                                                         affluentOnly.Some? && affluentOnly.value,
                                                                         if weatherTrigger.Some?
                                                                         then Varchar(weatherTrigger.value, WeatherTriggerLength)
                                                                         else None)]
                         && r.db.devices == db.devices && r.db.pings == db.pings && r.db.delivered == db.delivered
    ensures r.id.Err? ==> r.db == db.(next := r.db.next)
    ensures Valid(db) ==> Valid(r.db) && (r.id.Ok? ==> r.id.value !in db.offers)
  {
    var id := db.next.offer;
    var drawn := db.(next := db.next.(offer := id + 1));
    DrawKeepsValid(db, drawn.next);
    var trigger := if weatherTrigger.Some? then Varchar(weatherTrigger.value, WeatherTriggerLength) else None;
    if h3Hex.Some? && Varchar(h3Hex.value, H3HexLength).None? then Inserted(db, Err(ValueTooLong("h3_hex", H3HexLength)))
    else if title.Some? && Varchar(title.value, TitleLength).None? then Inserted(db, Err(ValueTooLong("title", TitleLength)))
    else if weatherTrigger.Some? && trigger.None? then
      Inserted(db, Err(ValueTooLong("weather_trigger", WeatherTriggerLength)))
    else if h3Hex.None? then Inserted(drawn, Err(NotNullViolation("h3_hex")))
    else if title.None? then Inserted(drawn, Err(NotNullViolation("title")))
    else if body.None? then Inserted(drawn, Err(NotNullViolation("body")))
    else
      var hex := Varchar(h3Hex.value, H3HexLength);
      var heading := Varchar(title.value, TitleLength);
      var row := Offer(id, hex.value, heading.value, body.value, affluentOnly.GetOr(false), trigger);
      OfferKeepsValid(db, row);
      Inserted(drawn.(offers := db.offers[id := row]), Ok(id))
  }

  predicate AlreadyDelivered(db: Db, deviceId: nat, offerId: nat) {
    exists k | k in db.delivered :: db.delivered[k].deviceId == deviceId && db.delivered[k].offerId == offerId
  }

  /** `INSERT INTO delivered_offers (device_id, offer_id)`, with `sent_at` from the server clock. */
  function DeliverOffer(db: Db, deviceId: Option<nat>, offerId: Option<nat>, now: real): (r: Inserted)
    ensures r.id.Ok? <==> && deviceId.Some? && offerId.Some?
                          && deviceId.value in db.devices && offerId.value in db.offers
                          && !AlreadyDelivered(db, deviceId.value, offerId.value)
    ensures r.db.next == db.next.(delivered := db.next.delivered + 1)
    ensures r.id.Ok? ==> && r.id.value == db.next.delivered
                         && r.db.delivered == db.delivered[r.id.value := DeliveredOffer(r.id.value, deviceId.value, offerId.value, now)]
                         && r.db.devices == db.devices && r.db.pings == db.pings && r.db.offers == db.offers
    ensures r.id.Err? ==> r.db == db.(next := r.db.next)
    ensures Valid(db) ==> Valid(r.db) && (r.id.Ok? ==> r.id.value !in db.delivered)
  {
    var id := db.next.delivered;
    var drawn := db.(next := db.next.(delivered := id + 1));
    DrawKeepsValid(db, drawn.next);
    if deviceId.None? then Inserted(drawn, Err(NotNullViolation("device_id")))
    else if offerId.None? then Inserted(drawn, Err(NotNullViolation("offer_id")))
    else if AlreadyDelivered(db, deviceId.value, offerId.value) then
      Inserted(drawn, Err(UniqueViolation("idx_delivered_offers_unique")))
    else if deviceId.value !in db.devices then Inserted(drawn, Err(ForeignKeyViolation("device_id")))
    else if offerId.value !in db.offers then Inserted(drawn, Err(ForeignKeyViolation("offer_id")))
    else
      var row := DeliveredOffer(id, deviceId.value, offerId.value, now);
      DeliveryKeepsValid(db, row);
      Inserted(drawn.(delivered := db.delivered[id := row]), Ok(id))
  }

  /** Drawing ids without adding rows keeps every constraint. */
  lemma DrawKeepsValid(db: Db, next: Sequences)
    requires db.next.device <= next.device && db.next.ping <= next.ping
    requires db.next.offer <= next.offer && db.next.delivered <= next.delivered
    ensures Valid(db) ==> Valid(db.(next := next))
  {
  }

  /** A device whose phone fits and is not yet used, under the device sequence's next id, keeps
      every constraint. */
  lemma DeviceKeepsValid(db: Db, row: Device)
    requires row.id == db.next.device && |row.phone| <= PhoneLength && !PhoneTaken(db, row.phone)
    ensures Valid(db) ==> Valid(db.(next := db.next.(device := row.id + 1), devices := db.devices[row.id := row]))
  {
  }

  /** A ping of an existing device with a fitting cell, under the ping sequence's next id, keeps
      every constraint. */
  lemma PingKeepsValid(db: Db, row: DevicePing)
    requires row.id == db.next.ping && row.deviceId in db.devices && |row.h3Hex| <= H3HexLength
    ensures Valid(db) ==> Valid(db.(next := db.next.(ping := row.id + 1), pings := db.pings[row.id := row]))
  {
  }

  /** An offer whose columns fit, under the offer sequence's next id, keeps every constraint. */
  lemma OfferKeepsValid(db: Db, row: Offer)
    requires row.id == db.next.offer && |row.h3Hex| <= H3HexLength && |row.title| <= TitleLength
    requires row.weatherTrigger.Some? ==> |row.weatherTrigger.value| <= WeatherTriggerLength
    ensures Valid(db) ==> Valid(db.(next := db.next.(offer := row.id + 1), offers := db.offers[row.id := row]))
  {
  }

  /** A delivery of an existing offer to an existing device that has not had it, under the
      delivered sequence's next id, keeps every constraint. */
  lemma DeliveryKeepsValid(db: Db, row: DeliveredOffer)
    requires row.id == db.next.delivered
    requires row.deviceId in db.devices && row.offerId in db.offers
    requires !AlreadyDelivered(db, row.deviceId, row.offerId)
    ensures Valid(db) ==> Valid(db.(next := db.next.(delivered := row.id + 1), delivered := db.delivered[row.id := row]))
  {
  }

  /** `DELETE FROM devices WHERE id = :id`: its pings and delivered offers go with it. */
  function DeleteDevice(db: Db, id: nat): (db': Db)
    ensures db'.devices == db.devices - {id}
    ensures forall k :: k in db'.pings <==> k in db.pings && db.pings[k].deviceId != id
    ensures forall k :: k in db'.delivered <==> k in db.delivered && db.delivered[k].deviceId != id
    ensures forall k | k in db'.pings :: db'.pings[k] == db.pings[k]
    ensures forall k | k in db'.delivered :: db'.delivered[k] == db.delivered[k]
    ensures db'.offers == db.offers && db'.next == db.next
    ensures Valid(db) ==> Valid(db')
  {
    var db' := db.(devices := db.devices - {id},
                   pings := map k | k in db.pings && db.pings[k].deviceId != id :: db.pings[k],
                   delivered := map k | k in db.delivered && db.delivered[k].deviceId != id :: db.delivered[k]);
    assert ReferencesExist(db) ==> ReferencesExist(db');
    ShrinkKeepsValid(db, db');
    db'
  }

  /** `DELETE FROM offers WHERE id = :id`: its deliveries go with it. */
  function DeleteOffer(db: Db, id: nat): (db': Db)
    ensures db'.offers == db.offers - {id}
    ensures forall k :: k in db'.delivered <==> k in db.delivered && db.delivered[k].offerId != id
    ensures forall k | k in db'.delivered :: db'.delivered[k] == db.delivered[k]
    ensures db'.devices == db.devices && db'.pings == db.pings && db'.next == db.next
    ensures Valid(db) ==> Valid(db')
  {
    var db' := db.(offers := db.offers - {id},
                   delivered := map k | k in db.delivered && db.delivered[k].offerId != id :: db.delivered[k]);
    assert ReferencesExist(db) ==> ReferencesExist(db');
    ShrinkKeepsValid(db, db');
    db'
  }

  /** Every row of `db'` is a row of `db`, and the sequences are where they were. */
  predicate Shrinks(db: Db, db': Db) {
    && (forall k | k in db'.devices :: k in db.devices && db'.devices[k] == db.devices[k])
    && (forall k | k in db'.pings :: k in db.pings && db'.pings[k] == db.pings[k])
    && (forall k | k in db'.offers :: k in db.offers && db'.offers[k] == db.offers[k])
    && (forall k | k in db'.delivered :: k in db.delivered && db'.delivered[k] == db.delivered[k])
    && db'.next == db.next
  }

  /** Removing rows keeps every constraint except the foreign keys, which the caller shows. */
  lemma ShrinkKeepsValid(db: Db, db': Db)
    requires Shrinks(db, db')
    ensures Valid(db) && ReferencesExist(db') ==> Valid(db')
  {
  }

  /** Deleting a device just inserted undoes the insert; only the id sequence has moved on. */
  lemma InsertThenDeleteDevice(db: Db, phone: Option<string>, now: real)
    requires Valid(db)
    requires InsertDevice(db, phone, now).id.Ok?
    ensures var r := InsertDevice(db, phone, now);
            DeleteDevice(r.db, r.id.value) == db.(next := r.db.next)
  {
    var id := db.next.device;
    var db' := db.(devices := db.devices[id := Device(id, Varchar(phone.value, PhoneLength).value, now)],
                   next := db.next.(device := id + 1));
    assert InsertDevice(db, phone, now) == Inserted(db', Ok(id));
    Unreferenced(db, id);
    DeleteUnreferenced(db, db', id);
  }

  /** A device id the sequence has not yet handed out is not referenced by any row. */
  lemma Unreferenced(db: Db, id: nat)
    requires Keyed(db) && ReferencesExist(db) && id >= db.next.device
    ensures id !in db.devices
    ensures forall k | k in db.pings :: db.pings[k].deviceId != id
    ensures forall k | k in db.delivered :: db.delivered[k].deviceId != id
  {
  }

  lemma DeleteUnreferenced(db: Db, db': Db, id: nat)
    requires id !in db.devices
    requires forall k | k in db.pings :: db.pings[k].deviceId != id
    requires forall k | k in db.delivered :: db.delivered[k].deviceId != id
    requires id in db'.devices && db'.devices == db.devices[id := db'.devices[id]]
    requires db'.pings == db.pings && db'.offers == db.offers && db'.delivered == db.delivered
    ensures DeleteDevice(db', id) == db.(next := db'.next)
  {
    var after := DeleteDevice(db', id);
    assert after.devices == db.devices;
    assert after.pings == db.pings;
    assert after.delivered == db.delivered;
  }
}
