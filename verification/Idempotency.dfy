/** The idempotency guard: a mutating handler first asks whether a response was
    already recorded for the request's Idempotency-Key on its route; if so, that
    response is replayed verbatim, otherwise the handler runs and records its
    response. (key, route) is a unique index of the record table. */
module Idempotency {
  import opened Common
  import opened Data

  /** A response as the guard hands it back: status code and JSON body. */
  datatype Response = Response(statusCode: int, body: string)

  /** What the business logic behind the guard produced when it ran: a created
      resource (status 201, recorded for replay) or an early rejection (not recorded). */
  datatype Outcome = Created(body: string) | Rejected(statusCode: int, body: string)

  predicate Matches(rec: IdempotencyRecord, key: string, route: string) {
    rec.key == key && rec.route == route
  }

  /** Position of the first record for exactly (key, route). */
  function FindRecord(records: seq<IdempotencyRecord>, key: string, route: string): (r: Option<nat>)
    ensures r.None? <==> forall i :: 0 <= i < |records| ==> !Matches(records[i], key, route)
    ensures r.Some? ==> r.value < |records| && Matches(records[r.value], key, route)
    ensures r.Some? ==> forall i :: 0 <= i < r.value ==> !Matches(records[i], key, route)
  {
    if records == [] then None
    else
      var rest := FindRecord(records[..|records| - 1], key, route);
      if rest.Some? then rest
      else if Matches(records[|records| - 1], key, route) then Some(|records| - 1)
      else None
  }

  /** TryReplayAsync: a read-only lookup of the stored response for the header's key
      on this route. A missing or blank key never replays. */
  function TryReplay(records: seq<IdempotencyRecord>, keyHeader: Option<string>, route: string)
    : (r: Option<Response>)
    ensures IsNullOrWhiteSpace(keyHeader) ==> r.None?
    ensures !IsNullOrWhiteSpace(keyHeader) ==>
              (r.Some? <==> exists i :: 0 <= i < |records| && Matches(records[i], keyHeader.value, route))
    ensures r.Some? ==> exists i :: 0 <= i < |records| && Matches(records[i], keyHeader.value, route)
                          && r.value == Response(records[i].statusCode, records[i].responseBody)
  {
    if IsNullOrWhiteSpace(keyHeader) then None
    else
      match FindRecord(records, keyHeader.value, route)
      case None => None
      case Some(i) => Some(Response(records[i].statusCode, records[i].responseBody))
  }

  /** Round trip: once a response is stored for a fresh (key, route), asking with that
      key on that route replays exactly that status and body. */
  lemma StoreThenReplay(records: seq<IdempotencyRecord>, key: string, route: string,
                        statusCode: int, body: string, now: int)
    requires !IsBlank(key)
    requires FindRecord(records, key, route).None?
    ensures TryReplay(records + [IdempotencyRecord(key, route, statusCode, body, now)], Some(key), route)
            == Some(Response(statusCode, body))
  {
    var records' := records + [IdempotencyRecord(key, route, statusCode, body, now)];
    assert FindRecord(records', key, route) == Some(|records|) by {
      assert records'[..|records|] == records;
    }
  }

  /** A replay stays the same however many records are appended later. */
  lemma {:induction false} ReplayIsStable(records: seq<IdempotencyRecord>, later: seq<IdempotencyRecord>,
                                         keyHeader: Option<string>, route: string)
    requires TryReplay(records, keyHeader, route).Some?
    ensures TryReplay(records + later, keyHeader, route) == TryReplay(records, keyHeader, route)
  {
    var key := keyHeader.value;
    var i := FindRecord(records, key, route).value;
    var all := records + later;
    assert all[i] == records[i];
    assert forall j :: 0 <= j < i ==> all[j] == records[j];
    var k := FindRecord(all, key, route).value;
    assert k == i;
  }

  /** The same key on another route never matches a record stored for this route. */
  lemma OtherRouteDoesNotMatch(key: string, route: string, otherRoute: string,
                               statusCode: int, body: string, now: int)
    requires !IsBlank(key) && route != otherRoute
    ensures TryReplay([IdempotencyRecord(key, route, statusCode, body, now)], Some(key), otherRoute).None?
  {
  }

  /** StoreAsync: adds one record. The unique (key, route) index rejects a second
      record for the same pair; then nothing is added and `stored` is false. */
  method Store(db: AppDb, route: string, key: string, statusCode: int, body: string, now: int)
    returns (stored: bool)
    modifies db`idempotencyRecords
    ensures stored <==> FindRecord(old(db.idempotencyRecords), key, route).None?
    ensures db.idempotencyRecords
            == if stored then old(db.idempotencyRecords) + [IdempotencyRecord(key, route, statusCode, body, now)]
               else old(db.idempotencyRecords)
  {
    stored := FindRecord(db.idempotencyRecords, key, route).None?;
    if stored {
      db.idempotencyRecords := db.idempotencyRecords + [IdempotencyRecord(key, route, statusCode, body, now)];
    }
  }

  /** The calling pattern of the create handlers: replay if a record exists; otherwise
      run the business logic (its result is `outcome`) and, when it created something
      and the key is present, record the 201 response. */
  method Guarded(db: AppDb, keyHeader: Option<string>, route: string, outcome: Outcome, now: int)
    returns (response: Response, replayed: bool)
    modifies db`idempotencyRecords
    ensures replayed <==> TryReplay(old(db.idempotencyRecords), keyHeader, route).Some?
    ensures replayed ==> response == TryReplay(old(db.idempotencyRecords), keyHeader, route).value
                         && db.idempotencyRecords == old(db.idempotencyRecords)
    ensures !replayed ==>
              response == (match outcome
                           case Created(b) => Response(201, b)
                           case Rejected(s, b) => Response(s, b))
    ensures !replayed && outcome.Created? && !IsNullOrWhiteSpace(keyHeader) ==>
              db.idempotencyRecords
              == old(db.idempotencyRecords) + [IdempotencyRecord(keyHeader.value, route, 201, outcome.body, now)]
    ensures !replayed && (outcome.Rejected? || IsNullOrWhiteSpace(keyHeader)) ==>
              db.idempotencyRecords == old(db.idempotencyRecords)
  {
    var replay := TryReplay(db.idempotencyRecords, keyHeader, route);
    if replay.Some? {
      return replay.value, true;
    }
    replayed := false;
    match outcome {
      case Rejected(s, b) =>
        response := Response(s, b);
      case Created(b) =>
        response := Response(201, b);
        if !IsNullOrWhiteSpace(keyHeader) {
          var _ := Store(db, route, keyHeader.value, 201, b, now);
        }
    }
  }

  /** A retried request with the same key and route gets the first response back,
      whatever the business logic would produce the second time, and the table
      keeps a single record. */
  method RetriedRequest(db: AppDb, key: string, route: string, first: Outcome, second: Outcome,
                        now: int, later: int)
    returns (r1: Response, r2: Response)
    requires !IsBlank(key) && first.Created?
    requires FindRecord(db.idempotencyRecords, key, route).None?
    modifies db`idempotencyRecords
    ensures r1 == r2 == Response(201, first.body)
    ensures db.idempotencyRecords
            == old(db.idempotencyRecords) + [IdempotencyRecord(key, route, 201, first.body, now)]
  {
    var replayed;
    r1, replayed := Guarded(db, Some(key), route, first, now);
    StoreThenReplay(old(db.idempotencyRecords), key, route, 201, first.body, now);
    r2, replayed := Guarded(db, Some(key), route, second, later);
  }
}
