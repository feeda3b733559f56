/** The create/get/update/delete functions of utils/db_schema_crud.py: the
    documents each create function writes, the queries each get function
    runs, and the class Database whose methods change the store in place. */
module Crud {
  import opened Common
  import opened Store

  // ---------------------------------------------------------------------
  // The documents the create functions write

  function UserDoc(firstName: string, lastName: string, email: string, passwordHash: string,
                   roles: seq<string>, now: Moment): (d: Doc)
    ensures d.Keys == {"first_name", "last_name", "email", "password_hash", "roles", "created_at"}
    ensures d["email"] == Str(email) && d["roles"] == Strs(roles) && d["password_hash"] == Str(passwordHash)
  {
    map["first_name" := Str(firstName), "last_name" := Str(lastName), "email" := Str(email),
        "password_hash" := Str(passwordHash), "roles" := Strs(roles), "created_at" := Time(now)]
  }

  /** create_cadet's document: `flight_id` is stored only when one is given. */
  function CadetDoc(userId: Id, rank: Value, flightId: Option<Id>): (d: Doc)
    ensures d.Keys == {"user_id", "rank"} + (if flightId.Some? then {"flight_id"} else {})
    ensures d["user_id"] == Ref(userId) && d["rank"] == rank
    ensures flightId.Some? ==> d["flight_id"] == Ref(flightId.value)
  {
    var base := map["user_id" := Ref(userId), "rank" := rank];
    if flightId.Some? then base["flight_id" := Ref(flightId.value)] else base
  }

  function EventDoc(eventName: string, eventType: string, startDate: Moment, endDate: Moment,
                    createdBy: Id, now: Moment): (d: Doc)
    ensures d.Keys == {"event_name", "event_type", "start_date", "end_date", "created_by_user_id", "created_at"}
    ensures d["start_date"] == Time(startDate) && d["event_name"] == Str(eventName)
  {
    map["event_name" := Str(eventName), "event_type" := Str(eventType), "start_date" := Time(startDate),
        "end_date" := Time(endDate), "created_by_user_id" := Ref(createdBy), "created_at" := Time(now)]
  }

  function AssignmentDoc(eventId: Id, cadetId: Id, assignedBy: Id, now: Moment): (d: Doc)
    ensures d.Keys == {"event_id", "cadet_id", "assigned_by_user_id", "created_at"}
    ensures d["event_id"] == Ref(eventId) && d["cadet_id"] == Ref(cadetId)
  {
    map["event_id" := Ref(eventId), "cadet_id" := Ref(cadetId), "assigned_by_user_id" := Ref(assignedBy),
        "created_at" := Time(now)]
  }

  function RecordDoc(eventId: Id, cadetId: Id, status: string, recordedBy: Id, now: Moment): (d: Doc)
    ensures d.Keys == {"event_id", "cadet_id", "status", "recorded_by_user_id", "created_at"}
    ensures d["event_id"] == Ref(eventId) && d["cadet_id"] == Ref(cadetId) && d["status"] == Str(status)
  {
    map["event_id" := Ref(eventId), "cadet_id" := Ref(cadetId), "status" := Str(status),
        "recorded_by_user_id" := Ref(recordedBy), "created_at" := Time(now)]
  }

  function WaiverDoc(recordId: Id, reason: string, status: string, submittedBy: Id, now: Moment): (d: Doc)
    ensures d.Keys == {"attendance_record_id", "reason", "status", "submitted_by_user_id", "created_at"}
    ensures d["attendance_record_id"] == Ref(recordId) && d["reason"] == Str(reason)
    ensures d["status"] == Str(status) && d["submitted_by_user_id"] == Ref(submittedBy)
  {
    map["attendance_record_id" := Ref(recordId), "reason" := Str(reason), "status" := Str(status),
        "submitted_by_user_id" := Ref(submittedBy), "created_at" := Time(now)]
  }

  function ApprovalDoc(waiverId: Id, approverId: Id, decision: string, comments: string, now: Moment): (d: Doc)
    ensures d.Keys == {"waiver_id", "approver_id", "decision", "comments", "created_at"}
    ensures d["waiver_id"] == Ref(waiverId) && d["approver_id"] == Ref(approverId)
    ensures d["decision"] == Str(decision) && d["comments"] == Str(comments)
  {
    map["waiver_id" := Ref(waiverId), "approver_id" := Ref(approverId), "decision" := Str(decision),
        "comments" := Str(comments), "created_at" := Time(now)]
  }

  function FlightDoc(name: string, commanderCadetId: Id): (d: Doc)
    ensures d.Keys == {"name", "commander_cadet_id"}
    ensures d["name"] == Str(name) && d["commander_cadet_id"] == Ref(commanderCadetId)
  {
    map["name" := Str(name), "commander_cadet_id" := Ref(commanderCadetId)]
  }

  // ---------------------------------------------------------------------
  // The get functions

  function GetUserById(s: DbState, userId: Id): (r: Option<Entry>)
    ensures r.Some? <==> s.connected && exists e :: e in Tab(s, Users) && e.id == userId
    ensures r.Some? ==> r.value in Tab(s, Users) && r.value.id == userId
  { ById(s, Users, userId) }

  function GetUserByEmail(s: DbState, email: string): (r: Option<Entry>)
    ensures r.Some? ==> s.connected && r.value in Tab(s, Users) && Matches(r.value, "email", Str(email))
    ensures r.None? && s.connected ==> forall e :: e in Tab(s, Users) ==> !Matches(e, "email", Str(email))
  { One(s, Users, "email", Str(email)) }

  function GetCadetById(s: DbState, cadetId: Id): (r: Option<Entry>)
    ensures r.Some? <==> s.connected && exists e :: e in Tab(s, Cadets) && e.id == cadetId
    ensures r.Some? ==> r.value in Tab(s, Cadets) && r.value.id == cadetId
  { ById(s, Cadets, cadetId) }

  function GetCadetByUserId(s: DbState, userId: Id): (r: Option<Entry>)
    ensures r.Some? ==> s.connected && r.value in Tab(s, Cadets) && Matches(r.value, "user_id", Ref(userId))
    ensures r.None? && s.connected ==> forall e :: e in Tab(s, Cadets) ==> !Matches(e, "user_id", Ref(userId))
  { One(s, Cadets, "user_id", Ref(userId)) }

  function GetEventById(s: DbState, eventId: Id): (r: Option<Entry>)
    ensures r.Some? <==> s.connected && exists e :: e in Tab(s, Events) && e.id == eventId
    ensures r.Some? ==> r.value in Tab(s, Events) && r.value.id == eventId
  { ById(s, Events, eventId) }

  function GetEventsByType(s: DbState, eventType: string): (r: Table)
    ensures forall e :: e in r <==> s.connected && e in Tab(s, Events) && Matches(e, "event_type", Str(eventType))
  { Many(s, Events, "event_type", Str(eventType)) }

  function GetEventsByCreator(s: DbState, userId: Id): (r: Table)
    ensures forall e :: e in r <==> s.connected && e in Tab(s, Events) && Matches(e, "created_by_user_id", Ref(userId))
  { Many(s, Events, "created_by_user_id", Ref(userId)) }

  function GetEventAssignmentById(s: DbState, assignmentId: Id): (r: Option<Entry>)
    ensures r.Some? <==> s.connected && exists e :: e in Tab(s, EventAssignments) && e.id == assignmentId
    ensures r.Some? ==> r.value in Tab(s, EventAssignments) && r.value.id == assignmentId
  { ById(s, EventAssignments, assignmentId) }

  function GetAssignmentsByEvent(s: DbState, eventId: Id): (r: Table)
    ensures forall e :: e in r <==> s.connected && e in Tab(s, EventAssignments) && Matches(e, "event_id", Ref(eventId))
  { Many(s, EventAssignments, "event_id", Ref(eventId)) }

  function GetAssignmentsByCadet(s: DbState, cadetId: Id): (r: Table)
    ensures forall e :: e in r <==> s.connected && e in Tab(s, EventAssignments) && Matches(e, "cadet_id", Ref(cadetId))
  { Many(s, EventAssignments, "cadet_id", Ref(cadetId)) }

  function GetAttendanceRecordById(s: DbState, recordId: Id): (r: Option<Entry>)
    ensures r.Some? <==> s.connected && exists e :: e in Tab(s, AttendanceRecords) && e.id == recordId
    ensures r.Some? ==> r.value in Tab(s, AttendanceRecords) && r.value.id == recordId
  { ById(s, AttendanceRecords, recordId) }

  function GetAttendanceByEvent(s: DbState, eventId: Id): (r: Table)
    ensures forall e :: e in r <==> s.connected && e in Tab(s, AttendanceRecords) && Matches(e, "event_id", Ref(eventId))
  { Many(s, AttendanceRecords, "event_id", Ref(eventId)) }

  function GetAttendanceByCadet(s: DbState, cadetId: Id): (r: Table)
    ensures forall e :: e in r <==> s.connected && e in Tab(s, AttendanceRecords) && Matches(e, "cadet_id", Ref(cadetId))
  { Many(s, AttendanceRecords, "cadet_id", Ref(cadetId)) }

  function GetWaiverById(s: DbState, waiverId: Id): (r: Option<Entry>)
    ensures r.Some? <==> s.connected && exists e :: e in Tab(s, Waivers) && e.id == waiverId
    ensures r.Some? ==> r.value in Tab(s, Waivers) && r.value.id == waiverId
  { ById(s, Waivers, waiverId) }

  function GetWaiverByAttendanceRecord(s: DbState, recordId: Id): (r: Option<Entry>)
    ensures r.Some? ==> s.connected && r.value in Tab(s, Waivers) && Matches(r.value, "attendance_record_id", Ref(recordId))
    ensures r.None? && s.connected ==> forall e :: e in Tab(s, Waivers) ==> !Matches(e, "attendance_record_id", Ref(recordId))
  { One(s, Waivers, "attendance_record_id", Ref(recordId)) }

  function GetWaiversByStatus(s: DbState, status: string): (r: Table)
    ensures forall e :: e in r <==> s.connected && e in Tab(s, Waivers) && Matches(e, "status", Str(status))
  { Many(s, Waivers, "status", Str(status)) }

  /** Imported by the review page but not defined in the module it imports
      from; modelled as the plain list of all waivers. */
  function GetAllWaivers(s: DbState): (r: Table)
    ensures s.connected ==> r == Tab(s, Waivers)
    ensures !s.connected ==> r == []
  { Every(s, Waivers) }

  function GetWaiverApprovalById(s: DbState, approvalId: Id): (r: Option<Entry>)
    ensures r.Some? <==> s.connected && exists e :: e in Tab(s, WaiverApprovals) && e.id == approvalId
    ensures r.Some? ==> r.value in Tab(s, WaiverApprovals) && r.value.id == approvalId
  { ById(s, WaiverApprovals, approvalId) }

  function GetApprovalsByWaiver(s: DbState, waiverId: Id): (r: Table)
    ensures forall e :: e in r <==> s.connected && e in Tab(s, WaiverApprovals) && Matches(e, "waiver_id", Ref(waiverId))
  { Many(s, WaiverApprovals, "waiver_id", Ref(waiverId)) }

  function GetApprovalsByApprover(s: DbState, approverId: Id): (r: Table)
    ensures forall e :: e in r <==> s.connected && e in Tab(s, WaiverApprovals) && Matches(e, "approver_id", Ref(approverId))
  { Many(s, WaiverApprovals, "approver_id", Ref(approverId)) }

  function GetAllFlights(s: DbState): (r: Table)
    ensures s.connected ==> r == Tab(s, Flights)
    ensures !s.connected ==> r == []
  { Every(s, Flights) }

  /** Imported by the review page but not defined in the module it imports
      from; modelled as the plain lookup by id. */
  function GetFlightById(s: DbState, flightId: Id): (r: Option<Entry>)
    ensures r.Some? <==> s.connected && exists e :: e in Tab(s, Flights) && e.id == flightId
    ensures r.Some? ==> r.value in Tab(s, Flights) && r.value.id == flightId
  { ById(s, Flights, flightId) }

  // ---------------------------------------------------------------------
  // Writes that carry logic of their own

  /** create_cadet_if_not_exists: nothing is inserted, and None returned,
      when a cadet with this user_id exists or the store is unavailable. */
  function CadetIfNotExists(s: DbState, userId: Id, rank: int): (r: (DbState, Option<Id>))
    ensures r.1.None? ==> r.0 == s
    ensures r.1.Some? ==> s.connected && One(s, Cadets, "user_id", Ref(userId)).None? && r.1.value == s.nextId
  {
    if !s.connected || One(s, Cadets, "user_id", Ref(userId)).Some? then (s, None)
    else
      var (s', res) := Insert(s, Cadets, map["user_id" := Ref(userId), "rank" := Int(rank)]);
      (s', if res.Inserted? then Some(res.id) else None)
  }

  /** The cadets of a user. */
  function CadetsOf(s: DbState, userId: Id): Table {
    FindAll(Tab(s, Cadets), "user_id", Ref(userId))
  }

  lemma {:induction false} FindAllAppend(t: Table, e: Entry, field: string, v: Value)
    ensures FindAll(t + [e], field, v) == FindAll(t, field, v) + (if Matches(e, field, v) then [e] else [])
  {
    if t != [] {
      FindAllAppend(t[1..], e, field, v);
      assert (t + [e])[1..] == t[1..] + [e];
    }
  }

  /** The insert of create_cadet_if_not_exists can never hit the unique index. */
  lemma CadetIfNotExistsNeverClashes(s: DbState, userId: Id, rank: int)
    requires Valid(s) && s.connected && One(s, Cadets, "user_id", Ref(userId)).None?
    ensures Insert(s, Cadets, map["user_id" := Ref(userId), "rank" := Int(rank)]).1.Inserted?
  {
    var d := map["user_id" := Ref(userId), "rank" := Int(rank)];
    var t := Tab(s, Cadets);
    assert IndexKey(d, ["user_id"]) == [Ref(userId)];
    forall i | 0 <= i < |t| ensures !Collide(t[i].doc, d, UniqueFields(Cadets)) {
      assert t[i] in t;
    }
  }

  /** One call of create_cadet_if_not_exists inserts a cadet with the
      requested rank exactly when the user has none, and afterwards the user
      has a cadet. */
  lemma CadetIfNotExistsOnce(s: DbState, userId: Id, rank: int)
    requires Valid(s) && s.connected
    ensures var (s1, r1) := CadetIfNotExists(s, userId, rank);
      && s1.connected
      && (r1.Some? <==> CadetsOf(s, userId) == [])
      && (r1.None? ==> s1 == s)
      && (r1.Some? ==> CadetsOf(s1, userId) == [Entry(r1.value, map["user_id" := Ref(userId), "rank" := Int(rank)])])
      && One(s1, Cadets, "user_id", Ref(userId)).Some?
  {
    var d := map["user_id" := Ref(userId), "rank" := Int(rank)];
    var (s1, r1) := CadetIfNotExists(s, userId, rank);
    if One(s, Cadets, "user_id", Ref(userId)).Some? {
      var e := One(s, Cadets, "user_id", Ref(userId)).value;
      assert e in CadetsOf(s, userId);
    } else {
      CadetIfNotExistsNeverClashes(s, userId, rank);
      assert Tab(s1, Cadets) == Tab(s, Cadets) + [Entry(s.nextId, d)];
      FindAllAppend(Tab(s, Cadets), Entry(s.nextId, d), "user_id", Ref(userId));
      var t1 := Tab(s1, Cadets);
      assert Matches(t1[|t1| - 1], "user_id", Ref(userId));
    }
  }

  /** Calling create_cadet_if_not_exists twice leaves the user with exactly
      one cadet: the second call writes nothing. */
  lemma CadetIfNotExistsTwice(s: DbState, userId: Id, rank: int, rank2: int)
    requires Valid(s) && s.connected
    ensures var (s1, r1) := CadetIfNotExists(s, userId, rank);
            var (s2, r2) := CadetIfNotExists(s1, userId, rank2);
      && (r1.Some? <==> CadetsOf(s, userId) == [])
      && (r1.Some? ==> CadetsOf(s1, userId) == [Entry(r1.value, map["user_id" := Ref(userId), "rank" := Int(rank)])])
      && r2.None? && s2 == s1
      && |CadetsOf(s2, userId)| == if CadetsOf(s, userId) == [] then 1 else |CadetsOf(s, userId)|
  {
    CadetIfNotExistsOnce(s, userId, rank);
  }

  /** assign_cadet_to_flight: the `$set` of one field. */
  function AssignToFlight(s: DbState, cadetId: Id, flightId: Id): (r: (DbState, WriteResult))
    ensures r.1 == NoCollection <==> !s.connected
    ensures r.1 == Acknowledged(0) <==> s.connected && FindId(Tab(s, Cadets), cadetId).None?
    ensures r.1 != Acknowledged(1) ==> r.0 == s
  {
    Update(s, Cadets, cadetId, map["flight_id" := Ref(flightId)])
  }

  /** Assigning an existing cadet always succeeds (flight_id is in no unique
      index) and changes that cadet's flight_id and nothing else in the store. */
  lemma AssignChangesOnlyFlight(s: DbState, cadetId: Id, flightId: Id)
    requires Valid(s) && s.connected && ById(s, Cadets, cadetId).Some?
    ensures var (s', r) := AssignToFlight(s, cadetId, flightId);
      && r == Acknowledged(1)
      && (|Tab(s', Cadets)| == |Tab(s, Cadets)| &&
            forall i :: 0 <= i < |Tab(s, Cadets)| ==>
              Tab(s', Cadets)[i] == if Tab(s, Cadets)[i].id == cadetId
                                    then Entry(cadetId, Tab(s, Cadets)[i].doc["flight_id" := Ref(flightId)])
                                    else Tab(s, Cadets)[i])
      && forall c :: c != Cadets ==> Tab(s', c) == Tab(s, c)
  {
    UpdateOffIndexSucceeds(s, Cadets, cadetId, map["flight_id" := Ref(flightId)]);
    var e := FindId(Tab(s, Cadets), cadetId).value;
    assert e.doc + map["flight_id" := Ref(flightId)] == e.doc["flight_id" := Ref(flightId)];
    var t := Tab(s, Cadets);
    forall i | 0 <= i < |t| && t[i].id == cadetId ensures t[i] == e {
      var j :| 0 <= j < |t| && t[j] == e;
    }
  }

  /** Deleting a flight leaves every cadet document as it was, including
      their now dangling flight_id. */
  lemma DeleteFlightKeepsCadets(s: DbState, flightId: Id)
    requires Valid(s)
    ensures Tab(Delete(s, Flights, flightId).0, Cadets) == Tab(s, Cadets)
  {
    DeleteRemovesOnlyThatId(s, Flights, flightId);
  }

  // ---------------------------------------------------------------------
  // The store, changed in place

  class Database {
    var connected: bool
    var indexed: bool
    var tables: map<Coll, Table>
    var nextId: Id

    function State(): DbState
      reads this
    {
      DbState(connected, indexed, tables, nextId)
    }

    ghost predicate Valid()
      reads this
    {
      Store.Valid(State())
    }

    /** An empty database, reachable or not, with its indexes built. */
    constructor (connected: bool)
      ensures Valid() && this.connected == connected && indexed
      ensures forall c :: Tab(State(), c) == []
    {
      this.connected := connected;
      indexed := true;
      tables := map[Users := [], Cadets := [], Events := [], EventAssignments := [],
                    AttendanceRecords := [], Waivers := [], WaiverApprovals := [], Flights := []];
      nextId := 0;
      new;
      forall c: Coll ensures c in tables && tables[c] == [] {
        match c
        case Users => case Cadets => case Events => case EventAssignments =>
        case AttendanceRecords => case Waivers => case WaiverApprovals => case Flights =>
      }
    }

    method Load(s: DbState)
      modifies this
      ensures State() == s
    {
      connected, indexed, tables, nextId := s.connected, s.indexed, s.tables, s.nextId;
    }

    method InsertOne(c: Coll, d: Doc) returns (r: InsertResult)
      requires Valid()
      modifies this
      ensures Valid()
      ensures (State(), r) == Insert(old(State()), c, d)
    {
      InsertKeepsValid(State(), c, d);
      var (s', res) := Insert(State(), c, d);
      Load(s');
      r := res;
    }

    method UpdateOne(c: Coll, id: Id, updates: Doc) returns (r: WriteResult)
      requires Valid()
      modifies this
      ensures Valid()
      ensures (State(), r) == Update(old(State()), c, id, updates)
    {
      UpdateKeepsValid(State(), c, id, updates);
      var (s', res) := Update(State(), c, id, updates);
      Load(s');
      r := res;
    }

    method DeleteOne(c: Coll, id: Id) returns (r: WriteResult)
      requires Valid()
      modifies this
      ensures Valid()
      ensures (State(), r) == Delete(old(State()), c, id)
    {
      DeleteKeepsValid(State(), c, id);
      var (s', res) := Delete(State(), c, id);
      Load(s');
      r := res;
    }

    method DropCollection(c: Coll)
      requires Valid()
      modifies this
      ensures Valid()
      ensures State() == Drop(old(State()), c)
    {
      DropKeepsValid(State(), c);
      Load(Drop(State(), c));
    }

    method BuildIndexes() returns (ok: bool)
      requires Valid()
      modifies this
      ensures Valid()
      ensures (State(), ok) == CreateIndexes(old(State()))
    {
      CreateIndexesKeepsValid(State());
      var (s', res) := CreateIndexes(State());
      Load(s');
      ok := res;
    }

    // -- Users

    method CreateUser(firstName: string, lastName: string, email: string, passwordHash: string,
                      roles: seq<string>, now: Moment) returns (r: InsertResult)
      requires Valid()
      modifies this
      ensures Valid()
      ensures (State(), r) == Insert(old(State()), Users, UserDoc(firstName, lastName, email, passwordHash, roles, now))
    {
      r := InsertOne(Users, UserDoc(firstName, lastName, email, passwordHash, roles, now));
    }

    method UpdateUser(userId: Id, updates: Doc) returns (r: WriteResult)
      requires Valid()
      modifies this
      ensures Valid()
      ensures (State(), r) == Update(old(State()), Users, userId, updates)
    {
      r := UpdateOne(Users, userId, updates);
    }

    method DeleteUser(userId: Id) returns (r: WriteResult)
      requires Valid()
      modifies this
      ensures Valid()
      ensures (State(), r) == Delete(old(State()), Users, userId)
    {
      r := DeleteOne(Users, userId);
    }

    // -- Cadets

    method CreateCadet(userId: Id, rank: string, flightId: Option<Id>) returns (r: InsertResult)
      requires Valid()
      modifies this
      ensures Valid()
      ensures (State(), r) == Insert(old(State()), Cadets, CadetDoc(userId, Str(rank), flightId))
    {
      r := InsertOne(Cadets, CadetDoc(userId, Str(rank), flightId));
    }

    method UpdateCadet(cadetId: Id, updates: Doc) returns (r: WriteResult)
      requires Valid()
      modifies this
      ensures Valid()
      ensures (State(), r) == Update(old(State()), Cadets, cadetId, updates)
    {
      r := UpdateOne(Cadets, cadetId, updates);
    }

    method DeleteCadet(cadetId: Id) returns (r: WriteResult)
      requires Valid()
      modifies this
      ensures Valid()
      ensures (State(), r) == Delete(old(State()), Cadets, cadetId)
    {
      r := DeleteOne(Cadets, cadetId);
    }

    method CreateCadetIfNotExists(userId: Id, rank: int) returns (r: Option<Id>)
      requires Valid()
      modifies this
      ensures Valid()
      ensures (State(), r) == CadetIfNotExists(old(State()), userId, rank)
    {
      if !connected {
        return None;
      }
      var existing := One(State(), Cadets, "user_id", Ref(userId));
      if existing.Some? {
        return None;
      }
      var res := InsertOne(Cadets, map["user_id" := Ref(userId), "rank" := Int(rank)]);
      r := if res.Inserted? then Some(res.id) else None;
    }

    // -- Events

    method CreateEvent(eventName: string, eventType: string, startDate: Moment, endDate: Moment,
                       createdBy: Id, now: Moment) returns (r: InsertResult)
      requires Valid()
      modifies this
      ensures Valid()
      ensures (State(), r) == Insert(old(State()), Events, EventDoc(eventName, eventType, startDate, endDate, createdBy, now))
    {
      r := InsertOne(Events, EventDoc(eventName, eventType, startDate, endDate, createdBy, now));
    }

    method UpdateEvent(eventId: Id, updates: Doc) returns (r: WriteResult)
      requires Valid()
      modifies this
      ensures Valid()
      ensures (State(), r) == Update(old(State()), Events, eventId, updates)
    {
      r := UpdateOne(Events, eventId, updates);
    }

    method DeleteEvent(eventId: Id) returns (r: WriteResult)
      requires Valid()
      modifies this
      ensures Valid()
      ensures (State(), r) == Delete(old(State()), Events, eventId)
    {
      r := DeleteOne(Events, eventId);
    }

    // -- Event assignments

    method CreateEventAssignment(eventId: Id, cadetId: Id, assignedBy: Id, now: Moment) returns (r: InsertResult)
      requires Valid()
      modifies this
      ensures Valid()
      ensures (State(), r) == Insert(old(State()), EventAssignments, AssignmentDoc(eventId, cadetId, assignedBy, now))
    {
      r := InsertOne(EventAssignments, AssignmentDoc(eventId, cadetId, assignedBy, now));
    }

    method DeleteEventAssignment(assignmentId: Id) returns (r: WriteResult)
      requires Valid()
      modifies this
      ensures Valid()
      ensures (State(), r) == Delete(old(State()), EventAssignments, assignmentId)
    {
      r := DeleteOne(EventAssignments, assignmentId);
    }

    // -- Attendance records

    method CreateAttendanceRecord(eventId: Id, cadetId: Id, status: string, recordedBy: Id, now: Moment)
      returns (r: InsertResult)
      requires Valid()
      modifies this
      ensures Valid()
      ensures (State(), r) == Insert(old(State()), AttendanceRecords, RecordDoc(eventId, cadetId, status, recordedBy, now))
    {
      r := InsertOne(AttendanceRecords, RecordDoc(eventId, cadetId, status, recordedBy, now));
    }

    method UpdateAttendanceRecord(recordId: Id, updates: Doc) returns (r: WriteResult)
      requires Valid()
      modifies this
      ensures Valid()
      ensures (State(), r) == Update(old(State()), AttendanceRecords, recordId, updates)
    {
      r := UpdateOne(AttendanceRecords, recordId, updates);
    }

    method DeleteAttendanceRecord(recordId: Id) returns (r: WriteResult)
      requires Valid()
      modifies this
      ensures Valid()
      ensures (State(), r) == Delete(old(State()), AttendanceRecords, recordId)
    {
      r := DeleteOne(AttendanceRecords, recordId);
    }

    // -- Waivers

    method CreateWaiver(recordId: Id, reason: string, status: string, submittedBy: Id, now: Moment)
      returns (r: InsertResult)
      requires Valid()
      modifies this
      ensures Valid()
      ensures (State(), r) == Insert(old(State()), Waivers, WaiverDoc(recordId, reason, status, submittedBy, now))
    {
      r := InsertOne(Waivers, WaiverDoc(recordId, reason, status, submittedBy, now));
    }

    method UpdateWaiver(waiverId: Id, updates: Doc) returns (r: WriteResult)
      requires Valid()
      modifies this
      ensures Valid()
      ensures (State(), r) == Update(old(State()), Waivers, waiverId, updates)
    {
      r := UpdateOne(Waivers, waiverId, updates);
    }

    method DeleteWaiver(waiverId: Id) returns (r: WriteResult)
      requires Valid()
      modifies this
      ensures Valid()
      ensures (State(), r) == Delete(old(State()), Waivers, waiverId)
    {
      r := DeleteOne(Waivers, waiverId);
    }

    // -- Waiver approvals

    method CreateWaiverApproval(waiverId: Id, approverId: Id, decision: string, comments: string, now: Moment)
      returns (r: InsertResult)
      requires Valid()
      modifies this
      ensures Valid()
      ensures (State(), r) == Insert(old(State()), WaiverApprovals, ApprovalDoc(waiverId, approverId, decision, comments, now))
    {
      r := InsertOne(WaiverApprovals, ApprovalDoc(waiverId, approverId, decision, comments, now));
    }

    method DeleteWaiverApproval(approvalId: Id) returns (r: WriteResult)
      requires Valid()
      modifies this
      ensures Valid()
      ensures (State(), r) == Delete(old(State()), WaiverApprovals, approvalId)
    {
      r := DeleteOne(WaiverApprovals, approvalId);
    }

    // -- Flights

    method CreateFlight(name: string, commanderCadetId: Id) returns (r: InsertResult)
      requires Valid()
      modifies this
      ensures Valid()
      ensures (State(), r) == Insert(old(State()), Flights, FlightDoc(name, commanderCadetId))
    {
      r := InsertOne(Flights, FlightDoc(name, commanderCadetId));
    }

    method UpdateFlight(flightId: Id, updates: Doc) returns (r: WriteResult)
      requires Valid()
      modifies this
      ensures Valid()
      ensures (State(), r) == Update(old(State()), Flights, flightId, updates)
    {
      r := UpdateOne(Flights, flightId, updates);
    }

    method DeleteFlight(flightId: Id) returns (r: WriteResult)
      requires Valid()
      modifies this
      ensures Valid()
      ensures (State(), r) == Delete(old(State()), Flights, flightId)
    {
      r := DeleteOne(Flights, flightId);
    }

    method AssignCadetToFlight(cadetId: Id, flightId: Id) returns (r: WriteResult)
      requires Valid()
      modifies this
      ensures Valid()
      ensures (State(), r) == AssignToFlight(old(State()), cadetId, flightId)
    {
      r := UpdateOne(Cadets, cadetId, map["flight_id" := Ref(flightId)]);
    }
  }
}
