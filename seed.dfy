/** scripts/seed_users.py: populate clears the eight collections, inserts
    the demo users, cadet profiles, flights with their members, events and
    one attendance record per event and cadet, then builds the indexes.
    The bcrypt hash, the current time and the events' start and end times
    are parameters. */
module Seed {
  import opened Common
  import opened Store
  import opened Crud

  // ---------------------------------------------------------------------
  // The demo data

  /** One row of USERS: username, first and last name, email, role. */
  datatype UserRow = UserRow(username: string, first: string, last: string, email: string, role: string)

  const DemoUsers: seq<UserRow> := [
    UserRow("admin1", "Admin", "User", "admin1@rollcall.local", "admin"),
    UserRow("cadre1", "Cadre", "Member", "cadre1@rollcall.local", "cadre"),
    UserRow("cadre2", "Sarah", "Williams", "cadre2@rollcall.local", "cadre"),
    UserRow("fc1", "James", "Anderson", "fc1@rollcall.local", "flight_commander"),
    UserRow("fc2", "Maria", "Garcia", "fc2@rollcall.local", "flight_commander"),
    UserRow("cadet1", "Tyler", "Brooks", "cadet1@rollcall.local", "cadet"),
    UserRow("cadet2", "Emily", "Chen", "cadet2@rollcall.local", "cadet"),
    UserRow("cadet3", "Marcus", "Davis", "cadet3@rollcall.local", "cadet"),
    UserRow("cadet4", "Ashley", "Foster", "cadet4@rollcall.local", "cadet"),
    UserRow("cadet5", "Jordan", "Hayes", "cadet5@rollcall.local", "cadet"),
    UserRow("cadet6", "Nicole", "Kim", "cadet6@rollcall.local", "cadet"),
    UserRow("cadet7", "Brian", "Lopez", "cadet7@rollcall.local", "cadet"),
    UserRow("cadet8", "Rachel", "Martinez", "cadet8@rollcall.local", "cadet"),
    UserRow("cadet9", "Kevin", "Nguyen", "cadet9@rollcall.local", "cadet"),
    UserRow("cadet10", "Megan", "O'Brien", "cadet10@rollcall.local", "cadet")
  ]

  /** CADET_RANKS in the dict's order: username and rank. */
  const CadetRanks: seq<(string, int)> := [
    ("fc1", 300), ("fc2", 300), ("cadet1", 200), ("cadet2", 200), ("cadet3", 100), ("cadet4", 100),
    ("cadet5", 200), ("cadet6", 300), ("cadet7", 100), ("cadet8", 400), ("cadet9", 200), ("cadet10", 100)
  ]

  /** FLIGHTS: name and the commander's username. */
  const DemoFlights: seq<(string, string)> := [("Alpha Flight", "fc1"), ("Bravo Flight", "fc2")]

  /** FLIGHT_ASSIGNMENTS in the dict's order: flight name and members. */
  const FlightAssignments: seq<(string, seq<string>)> := [
    ("Alpha Flight", ["fc1", "cadet1", "cadet2", "cadet3", "cadet4", "cadet5"]),
    ("Bravo Flight", ["fc2", "cadet6", "cadet7", "cadet8", "cadet9", "cadet10"])
  ]

  /** One row of EVENTS without its length in hours: name, type, days ago,
      creator's username. */
  datatype EventRow = EventRow(name: string, kind: string, daysAgo: nat, creator: string)

  const DemoEvents: seq<EventRow> := [
    EventRow("PT Session 1", "pt", 21, "cadre1"),
    EventRow("PT Session 2", "pt", 14, "cadre1"),
    EventRow("PT Session 3", "pt", 7, "cadre1"),
    EventRow("PT Session 4", "pt", 0, "cadre1"),
    EventRow("LLAB Week 1", "lab", 20, "cadre1"),
    EventRow("LLAB Week 2", "lab", 13, "cadre1"),
    EventRow("LLAB Week 3", "lab", 6, "cadre2")
  ]

  /** The number of demo events, and of attendance patterns. */
  const EventCount: nat := 7

  /** _PATTERNS: one attendance pattern per event, one letter per cadet. */
  const Patterns: seq<string> := [
    "PPPPPPPPPPPP",
    "APPPAPPPPPP",
    "PPPPPPAPPEPP",
    "APAPPPPPPPPP",
    "PPPPPPPPPPPP",
    "APPPPPAPPPPPP",
    "PPPPPPPPAPPP"
  ]

  /** The collections populate drops, in its order. */
  const Dropped: seq<Coll> := [Users, Cadets, Events, EventAssignments, AttendanceRecords, Waivers, WaiverApprovals, Flights]

  /** STATUS_MAP; any other letter is a KeyError, here None. */
  function StatusMap(c: char): (r: Option<string>)
    ensures r.Some? <==> c == 'P' || c == 'A' || c == 'E'
  {
    if c == 'P' then Some("present")
    else if c == 'A' then Some("absent")
    else if c == 'E' then Some("excused")
    else None
  }

  function Usernames(users: seq<UserRow>): (r: seq<string>)
    ensures |r| == |users| && forall i :: 0 <= i < |users| ==> r[i] == users[i].username
  {
    seq(|users|, i requires 0 <= i < |users| => users[i].username)
  }

  /** `[u[0] for u in users if u[4] == "cadet"]` */
  function CadetRoleNames(users: seq<UserRow>): seq<string> {
    if users == [] then []
    else (if users[0].role == "cadet" then [users[0].username] else []) + CadetRoleNames(users[1..])
  }

  /** Every name the filter keeps belongs to a user with role cadet. */
  lemma {:induction false} CadetRoleNamesSound(users: seq<UserRow>, x: string)
    requires x in CadetRoleNames(users)
    ensures exists u :: u in users && u.role == "cadet" && u.username == x
  {
    var head := if users[0].role == "cadet" then [users[0].username] else [];
    assert CadetRoleNames(users) == head + CadetRoleNames(users[1..]);
    if x in head {
      assert users[0] in users;
    } else {
      CadetRoleNamesSound(users[1..], x);
      var u :| u in users[1..] && u.role == "cadet" && u.username == x;
      assert u in users;
    }
  }

  /** CADET_USERNAMES, written out: CadetUsernamesInOrder shows it is the
      cadet-role usernames of USERS followed by fc1 and fc2. */
  const CadetUsernames: seq<string> :=
    ["cadet1", "cadet2", "cadet3", "cadet4", "cadet5", "cadet6", "cadet7", "cadet8", "cadet9", "cadet10", "fc1", "fc2"]

  function RankNames(): (r: seq<string>)
    ensures |r| == |CadetRanks| && forall i :: 0 <= i < |CadetRanks| ==> r[i] == CadetRanks[i].0
  {
    seq(|CadetRanks|, i requires 0 <= i < |CadetRanks| => CadetRanks[i].0)
  }

  function FlightNames(): (r: seq<string>)
    ensures |r| == |DemoFlights| && forall i :: 0 <= i < |DemoFlights| ==> r[i] == DemoFlights[i].0
  {
    seq(|DemoFlights|, i requires 0 <= i < |DemoFlights| => DemoFlights[i].0)
  }

  predicate Distinct<T(==)>(xs: seq<T>) {
    forall i, j :: 0 <= i < j < |xs| ==> xs[i] != xs[j]
  }

  // ---------------------------------------------------------------------
  // Facts about the demo data

  lemma {:induction false} FilterAllCadets(users: seq<UserRow>)
    requires forall i :: 0 <= i < |users| ==> users[i].role == "cadet"
    ensures CadetRoleNames(users) == Usernames(users)
  {
    if users != [] {
      FilterAllCadets(users[1..]);
    }
  }

  lemma {:induction false} FilterSkipsStaff(users: seq<UserRow>, k: int)
    requires 0 <= k <= |users|
    requires forall i :: 0 <= i < k ==> users[i].role != "cadet"
    ensures CadetRoleNames(users) == CadetRoleNames(users[k..])
  {
    if k > 0 {
      assert CadetRoleNames(users) == CadetRoleNames(users[1..]);
      FilterSkipsStaff(users[1..], k - 1);
      assert users[1..][k - 1..] == users[k..];
    }
  }

  lemma StaffFirst()
    ensures |DemoUsers| == 15
    ensures forall i :: 0 <= i < 5 ==> DemoUsers[i].role != "cadet"
    ensures forall i :: 5 <= i < 15 ==> DemoUsers[i].role == "cadet"
  {
  }

  /** Staff first, then cadets: the filter keeps exactly the cadets. */
  lemma StaffThenCadets(users: seq<UserRow>, k: int)
    requires 0 <= k <= |users|
    requires forall i :: 0 <= i < k ==> users[i].role != "cadet"
    requires forall i :: k <= i < |users| ==> users[i].role == "cadet"
    ensures CadetRoleNames(users) == Usernames(users[k..])
  {
    FilterSkipsStaff(users, k);
    FilterAllCadets(users[k..]);
  }

  /** CADET_USERNAMES is the usernames of the cadet-role users, in the order
      of USERS, then fc1 and fc2: cadet1 to cadet10, fc1, fc2. */
  lemma CadetUsernamesInOrder()
    ensures CadetRoleNames(DemoUsers) == Usernames(DemoUsers[5..])
    ensures CadetUsernames == CadetRoleNames(DemoUsers) + ["fc1", "fc2"]
  {
    CadetRoleNamesOfUsers();
    CadetNames();
  }

  lemma CadetRoleNamesOfUsers()
    ensures CadetRoleNames(DemoUsers) == Usernames(DemoUsers[5..])
  {
    StaffFirst();
    StaffThenCadets(DemoUsers, 5);
  }

  lemma CadetNames()
    ensures Usernames(DemoUsers[5..]) + ["fc1", "fc2"] == CadetUsernames
  {
  }

  lemma UsernamesDistinct()
    ensures Distinct(Usernames(DemoUsers))
  {
  }

  lemma EmailsDistinct()
    ensures forall i, j :: 0 <= i < j < |DemoUsers| ==> DemoUsers[i].email != DemoUsers[j].email
  {
  }

  /** The cadet profiles are those of the users from fc1 on, in order. */
  lemma RanksFollowUsers()
    ensures forall i :: 0 <= i < |CadetRanks| ==> RankNames()[i] == Usernames(DemoUsers)[i + 3]
  {
  }

  /** Each name of CADET_USERNAMES is a cadet profile: cadet k at profile
      k + 1, fc1 and fc2 at profiles 0 and 1. */
  lemma CadetUsernamesHaveProfiles()
    ensures |CadetUsernames| == 12
    ensures forall ci :: 0 <= ci < 12 ==> CadetUsernames[ci] == RankNames()[ProfileOf(ci)]
  {
  }

  /** The profile index of the cadet at position ci of CADET_USERNAMES. */
  function ProfileOf(ci: int): (r: int)
    ensures 0 <= ci < 12 ==> 0 <= r < 12
  {
    if ci < 10 then ci + 2 else ci - 10
  }

  /** Different cadets of CADET_USERNAMES have different profiles. */
  lemma ProfileOfInjective()
    ensures forall ci, cj :: 0 <= ci < cj < 12 ==> ProfileOf(ci) != ProfileOf(cj)
  {
  }

  /** The flight's members, as profile indexes: Alpha has fc1 and cadet1 to
      cadet5, Bravo fc2 and cadet6 to cadet10. */
  lemma MembersAreProfiles()
    ensures |FlightAssignments| == 2
    ensures forall f, j :: 0 <= f < 2 && 0 <= j < |FlightAssignments[f].1| ==>
              FlightAssignments[f].1[j] == RankNames()[MemberProfile(f, j)]
    ensures forall f :: 0 <= f < 2 ==> FlightAssignments[f].0 == FlightNames()[f]
  {
  }

  function MemberProfile(f: int, j: int): int {
    if j == 0 then f else if f == 0 then j + 1 else j + 6
  }

  lemma PatternsUseKnownLetters()
    ensures |Patterns| == |DemoEvents| == EventCount
    ensures forall e, k :: 0 <= e < |Patterns| && 0 <= k < |Patterns[e]| ==> StatusMap(Patterns[e][k]).Some?
  {
  }

  // ---------------------------------------------------------------------
  // Id dictionaries

  function Present<K>(xs: seq<K>): (r: seq<Option<K>>)
    ensures |r| == |xs| && forall i :: 0 <= i < |xs| ==> r[i] == Some(xs[i])
  {
    seq(|xs|, i requires 0 <= i < |xs| => Some(xs[i]))
  }

  /** ids `first`, `first + 1`, ... as insert_one hands them out. */
  function Range(first: Id, n: nat): (r: seq<Id>)
    ensures |r| == n && forall i :: 0 <= i < n ==> r[i] == first + i
  {
    seq(n, i requires 0 <= i < n => first + i)
  }

  /** A `..._by_username` / `..._by_name` dict: each name mapped to the id
      its insert returned, in order. */
  function IdsByName(names: seq<string>, first: Id): map<string, Id> {
    LastWins(Present(names), Range(first, |names|))
  }

  /** With distinct names, the dict maps the i-th name to the i-th id. */
  lemma IdsByNameAt(names: seq<string>, first: Id, i: int)
    requires Distinct(names) && 0 <= i < |names|
    ensures names[i] in IdsByName(names, first) && IdsByName(names, first)[names[i]] == first + i
  {
    var keys := Present(names);
    assert forall j :: i < j < |keys| ==> keys[j] != Some(names[i]);
    LastWinsValue(keys, Range(first, |names|), names[i], i);
  }

  lemma IdsByNameAll(names: seq<string>, first: Id)
    requires Distinct(names)
    ensures forall i :: 0 <= i < |names| ==> names[i] in IdsByName(names, first) && IdsByName(names, first)[names[i]] == first + i
  {
    forall i | 0 <= i < |names| ensures names[i] in IdsByName(names, first) && IdsByName(names, first)[names[i]] == first + i {
      IdsByNameAt(names, first, i);
    }
  }

  /** Where each phase's ids start when populate begins at id n0. */
  function UsersFrom(n0: Id): Id { n0 }
  function CadetsFrom(n0: Id): Id { n0 + |DemoUsers| }
  function FlightsFrom(n0: Id): Id { CadetsFrom(n0) + |CadetRanks| }
  function EventsFrom(n0: Id): Id { FlightsFrom(n0) + |DemoFlights| }
  function RecordsFrom(n0: Id): Id { EventsFrom(n0) + |DemoEvents| }

  /** The ids of the cadet with profile index i, of the user with index u,
      of flight f and of event e. */
  function UserId(n0: Id, u: nat): Id { UsersFrom(n0) + u }
  function CadetId(n0: Id, i: nat): Id { CadetsFrom(n0) + i }
  function FlightId(n0: Id, f: nat): Id { FlightsFrom(n0) + f }
  function EventId(n0: Id, e: nat): Id { EventsFrom(n0) + e }

  // ---------------------------------------------------------------------
  // The documents populate writes

  /** A seeded user: both password fields hold the hash, roles is the single role. */
  function SeedUserDoc(row: UserRow, hash: string, now: Moment): (d: Doc)
    ensures d.Keys == {"username", "first_name", "last_name", "name", "email", "password", "password_hash",
                       "role", "roles", "created_at"}
    ensures d["roles"] == Strs([row.role]) && d["role"] == Str(row.role)
    ensures d["password"] == d["password_hash"] == Str(hash)
    ensures d["email"] == Str(row.email) && d["username"] == Str(row.username)
  {
    map["username" := Str(row.username), "first_name" := Str(row.first), "last_name" := Str(row.last),
        "name" := Str(row.first + " " + row.last), "email" := Str(row.email), "password" := Str(hash),
        "password_hash" := Str(hash), "role" := Str(row.role), "roles" := Strs([row.role]),
        "created_at" := Time(now)]
  }

  /** A seeded cadet profile: the user's id, the rank and the user's name and email. */
  function SeedCadetDoc(userId: Id, rank: int, row: UserRow): (d: Doc)
    ensures d.Keys == {"user_id", "rank", "first_name", "last_name", "email"}
    ensures d["user_id"] == Ref(userId) && d["rank"] == Int(rank)
  {
    map["user_id" := Ref(userId), "rank" := Int(rank), "first_name" := Str(row.first),
        "last_name" := Str(row.last), "email" := Str(row.email)]
  }

  function UserDocs(hash: string, now: Moment): (r: seq<Doc>)
    ensures |r| == |DemoUsers|
  {
    seq(|DemoUsers|, i requires 0 <= i < |DemoUsers| => SeedUserDoc(DemoUsers[i], hash, now))
  }

  /** The profiles: profile i belongs to user i + 3. */
  function CadetDocs(n0: Id): (r: seq<Doc>)
    ensures |r| == |CadetRanks|
  {
    seq(|CadetRanks|, i requires 0 <= i < |CadetRanks| =>
          SeedCadetDoc(UserId(n0, i + 3), CadetRanks[i].1, DemoUsers[i + 3]))
  }

  /** Flight f is commanded by profile f (fc1, fc2). */
  function FlightDocs(n0: Id): (r: seq<Doc>)
    ensures |r| == |DemoFlights|
  {
    seq(|DemoFlights|, f requires 0 <= f < |DemoFlights| => FlightDoc(DemoFlights[f].0, CadetId(n0, f)))
  }

  /** The user index of each event's creator: cadre1 is user 1, cadre2 user 2. */
  function CreatorIndex(e: int): nat {
    if e == 6 then 2 else 1
  }

  function EventDocs(n0: Id, times: seq<(Moment, Moment)>, now: Moment): (r: seq<Doc>)
    requires |times| == |DemoEvents|
    ensures |r| == |DemoEvents|
  {
    seq(|DemoEvents|, e requires 0 <= e < |DemoEvents| =>
          EventDoc(DemoEvents[e].name, DemoEvents[e].kind, times[e].0, times[e].1,
                   UserId(n0, CreatorIndex(e)), now))
  }

  /** The status of cadet ci at event e: the pattern's letter, "P" past its end. */
  function StatusAt(pattern: string, ci: nat): (r: Option<string>)
    ensures ci < |pattern| ==> r == StatusMap(pattern[ci])
    ensures ci >= |pattern| ==> r == Some("present")
  {
    StatusMap(if ci < |pattern| then pattern[ci] else 'P')
  }

  /** The record of event e and the cadet at position ci of CADET_USERNAMES,
      recorded by cadre1 (user 1). */
  function SeedRecordDoc(n0: Id, e: nat, ci: nat, now: Moment): (d: Doc)
    requires e < EventCount && ci < 12
  {
    PatternsUseKnownLetters();
    var status := if ci < |Patterns[e]| then StatusMap(Patterns[e][ci]).value else "present";
    RecordDoc(EventId(n0, e), CadetId(n0, ProfileOf(ci)), status, UserId(n0, 1), now)
  }

  /** The records of the first `events` events, event by event, cadet by cadet. */
  function RecordDocs(n0: Id, events: nat, now: Moment): (r: seq<Doc>)
    requires events <= EventCount
    ensures |r| == 12 * events
  {
    if events == 0 then [] else RecordDocs(n0, events - 1, now) + EventRecords(n0, events - 1, now)
  }

  /** The records of event e, cadet by cadet. */
  function EventRecords(n0: Id, e: nat, now: Moment): (r: seq<Doc>)
    requires e < EventCount
    ensures |r| == 12 && forall ci :: 0 <= ci < 12 ==> r[ci] == SeedRecordDoc(n0, e, ci, now)
  {
    seq(12, ci requires 0 <= ci < 12 => SeedRecordDoc(n0, e, ci, now))
  }

  /** The entries of a run of inserts starting at id `first`. */
  function Entries(first: Id, docs: seq<Doc>): (t: Table)
    ensures |t| == |docs| && forall i :: 0 <= i < |docs| ==> t[i] == Entry(first + i, docs[i])
  {
    seq(|docs|, i requires 0 <= i < |docs| => Entry(first + i, docs[i]))
  }

  // ---------------------------------------------------------------------
  // Flight membership

  /** `$set` of flight_id on the document of `id`, if there is one. */
  function SetFlight(t: Table, id: Id, flightId: Id): (r: Table)
    ensures |r| == |t|
    ensures forall i :: 0 <= i < |t| ==> r[i].id == t[i].id && (t[i].id != id ==> r[i] == t[i])
  {
    match FindId(t, id)
    case None => t
    case Some(e) => Replace(t, id, e.doc + map["flight_id" := Ref(flightId)])
  }

  /** The flight_id updates in order: (cadet id, flight id). */
  function ApplyMoves(t: Table, moves: seq<(Id, Id)>): (r: Table)
    ensures |r| == |t|
    ensures forall i :: 0 <= i < |t| ==> r[i].id == t[i].id
  {
    if moves == [] then t
    else
      var n := |moves| - 1;
      SetFlight(ApplyMoves(t, moves[..n]), moves[n].0, moves[n].1)
  }

  /** Only flight_id changes under the updates. */
  lemma {:induction false} ApplyMovesKeepsOtherFields(t: Table, moves: seq<(Id, Id)>, i: int, k: string)
    requires DistinctIds(t) && 0 <= i < |t| && k != "flight_id"
    ensures k in ApplyMoves(t, moves)[i].doc <==> k in t[i].doc
    ensures k in t[i].doc ==> ApplyMoves(t, moves)[i].doc[k] == t[i].doc[k]
  {
    if moves != [] {
      var n := |moves| - 1;
      var t1 := ApplyMoves(t, moves[..n]);
      ApplyMovesKeepsOtherFields(t, moves[..n], i, k);
      match FindId(t1, moves[n].0)
      case None =>
      case Some(e) =>
        if t1[i].id == moves[n].0 {
          assert DistinctIds(t1);
          assert e == t1[i];
          assert ApplyMoves(t, moves) == Replace(t1, moves[n].0, e.doc + map["flight_id" := Ref(moves[n].1)]);
        }
    }
  }

  /** A cadet whose last update named flight f ends with flight_id f. */
  lemma {:induction false} LastMoveWins(t: Table, moves: seq<(Id, Id)>, i: int, j: int)
    requires DistinctIds(t) && 0 <= i < |t| && 0 <= j < |moves| && moves[j].0 == t[i].id
    requires forall j' :: j < j' < |moves| ==> moves[j'].0 != t[i].id
    ensures "flight_id" in ApplyMoves(t, moves)[i].doc
    ensures ApplyMoves(t, moves)[i].doc["flight_id"] == Ref(moves[j].1)
  {
    var n := |moves| - 1;
    var t1 := ApplyMoves(t, moves[..n]);
    if j == n {
      assert DistinctIds(t1);
      var e := FindId(t1, moves[n].0).value;
      assert e == t1[i];
      assert ApplyMoves(t, moves) == Replace(t1, moves[n].0, e.doc + map["flight_id" := Ref(moves[n].1)]);
    } else {
      LastMoveWins(t, moves[..n], i, j);
    }
  }

  /** The updates of FLIGHT_ASSIGNMENTS's first `flights` entries, flight by
      flight, member by member. */
  function Moves(n0: Id, flights: nat): (r: seq<(Id, Id)>)
    requires flights <= 2
    ensures |r| == 6 * flights
  {
    if flights == 0 then [] else Moves(n0, flights - 1) + FlightMoves(n0, flights - 1)
  }

  /** The updates of flight f's members. */
  function FlightMoves(n0: Id, f: nat): (r: seq<(Id, Id)>)
    ensures |r| == 6 && forall j :: 0 <= j < 6 ==> r[j] == (CadetId(n0, MemberProfile(f, j)), FlightId(n0, f))
  {
    seq(6, j requires 0 <= j < 6 => (CadetId(n0, MemberProfile(f, j)), FlightId(n0, f)))
  }

  // ---------------------------------------------------------------------
  // The store after populate

  /** The contents of each collection after populate, started at id n0. */
  function SeedTable(c: Coll, n0: Id, hash: string, now: Moment, times: seq<(Moment, Moment)>): Table
    requires |times| == |DemoEvents|
  {
    match c
    case Users => Entries(UsersFrom(n0), UserDocs(hash, now))
    case Cadets => ApplyMoves(Entries(CadetsFrom(n0), CadetDocs(n0)), Moves(n0, 2))
    case Flights => Entries(FlightsFrom(n0), FlightDocs(n0))
    case Events => Entries(EventsFrom(n0), EventDocs(n0, times, now))
    case AttendanceRecords => Entries(RecordsFrom(n0), RecordDocs(n0, |DemoEvents|, now))
    case _ => []
  }

  // ---------------------------------------------------------------------
  // What populate promises

  lemma MovesAt(n0: Id, flights: nat, f: int, j: int)
    requires flights <= 2 && 0 <= f < flights && 0 <= j < 6
    ensures Moves(n0, flights)[6 * f + j] == (CadetId(n0, MemberProfile(f, j)), FlightId(n0, f))
  {
    if f < flights - 1 {
      MovesAt(n0, flights - 1, f, j);
    }
  }

  /** Every profile is listed under exactly one flight. */
  lemma MemberProfileInjective()
    ensures forall f, j, f', j' :: 0 <= f < 2 && 0 <= j < 6 && 0 <= f' < 2 && 0 <= j' < 6 && (f, j) != (f', j') ==>
              MemberProfile(f, j) != MemberProfile(f', j')
    ensures forall f, j :: 0 <= f < 2 && 0 <= j < 6 ==> 0 <= MemberProfile(f, j) < 12
  {
  }

  /** No later update names the profile of member j of flight f. */
  lemma LaterMovesOthers(n0: Id, f: int, j: int)
    requires 0 <= f < 2 && 0 <= j < 6
    ensures forall k :: 6 * f + j < k < 12 ==> Moves(n0, 2)[k].0 != CadetId(n0, MemberProfile(f, j))
  {
    MemberProfileInjective();
    forall k | 6 * f + j < k < 12 ensures Moves(n0, 2)[k].0 != CadetId(n0, MemberProfile(f, j)) {
      MovesAt(n0, 2, k / 6, k % 6);
      assert k == 6 * (k / 6) + k % 6;
    }
  }

  /** The cadets table as inserted: profile i with user id UserId(n0, i + 3). */
  lemma CadetEntryAt(n0: Id, i: int)
    requires 0 <= i < |CadetRanks|
    ensures var base := Entries(CadetsFrom(n0), CadetDocs(n0));
            && DistinctIds(base) && |base| == |CadetRanks|
            && base[i].id == CadetId(n0, i)
            && "user_id" in base[i].doc && base[i].doc["user_id"] == Ref(UserId(n0, i + 3))
  {
  }

  /** Every member listed for a flight ends with that flight's id as its
      flight_id; its user_id is still the one it was inserted with. */
  lemma MembersGetTheirFlight(n0: Id, hash: string, now: Moment, times: seq<(Moment, Moment)>, f: int, j: int)
    requires |times| == |DemoEvents| && 0 <= f < 2 && 0 <= j < 6
    ensures var t := SeedTable(Cadets, n0, hash, now, times);
            var i := MemberProfile(f, j);
            && 0 <= i < |t| && t[i].id == CadetId(n0, i)
            && "flight_id" in t[i].doc && t[i].doc["flight_id"] == Ref(FlightId(n0, f))
            && "user_id" in t[i].doc && t[i].doc["user_id"] == Ref(UserId(n0, i + 3))
  {
    MemberProfileInjective();
    var base := Entries(CadetsFrom(n0), CadetDocs(n0));
    var moves := Moves(n0, 2);
    var i := MemberProfile(f, j);
    CadetEntryAt(n0, i);
    MovesAt(n0, 2, f, j);
    LaterMovesOthers(n0, f, j);
    LastMoveWins(base, moves, i, 6 * f + j);
    ApplyMovesKeepsOtherFields(base, moves, i, "user_id");
  }

  lemma RecordDocsAt(n0: Id, events: nat, now: Moment, e: int, ci: int)
    requires events <= EventCount && 0 <= e < events && 0 <= ci < 12
    ensures RecordDocs(n0, events, now)[12 * e + ci] == SeedRecordDoc(n0, e, ci, now)
  {
    RecordDocsPrefix(n0, events, now, e + 1, 12 * e + ci);
    RecordDocsLast(n0, e, now, ci);
  }

  /** Later events' records leave the earlier records in place. */
  lemma {:induction false} RecordDocsPrefix(n0: Id, events: nat, now: Moment, m: nat, k: int)
    requires m <= events <= EventCount && 0 <= k < 12 * m
    ensures RecordDocs(n0, events, now)[k] == RecordDocs(n0, m, now)[k]
  {
    if events > m {
      RecordDocsEarlier(n0, events, now, k);
      RecordDocsPrefix(n0, events - 1, now, m, k);
    }
  }

  /** The records of event e come after those of the earlier events. */
  lemma RecordDocsLast(n0: Id, e: nat, now: Moment, ci: int)
    requires e < EventCount && 0 <= ci < 12
    ensures RecordDocs(n0, e + 1, now)[12 * e + ci] == EventRecords(n0, e, now)[ci]
  {
    var prev := RecordDocs(n0, e, now);
    var last := EventRecords(n0, e, now);
    assert RecordDocs(n0, e + 1, now) == prev + last;
    assert (prev + last)[|prev| + ci] == last[ci];
  }

  /** Adding an event's records leaves the earlier records in place. */
  lemma RecordDocsEarlier(n0: Id, events: nat, now: Moment, k: int)
    requires 0 < events <= EventCount && 0 <= k < 12 * events - 12
    ensures RecordDocs(n0, events, now)[k] == RecordDocs(n0, events - 1, now)[k]
  {
    var prev := RecordDocs(n0, events - 1, now);
    var last := EventRecords(n0, events - 1, now);
    assert RecordDocs(n0, events, now) == prev + last;
  }

  /** One record per event and cadet: 7 x 12 records, the one at 12 e + ci
      for event e and the cadet at position ci of CADET_USERNAMES, with the
      pattern's status (present past the pattern's end). */
  lemma OneRecordPerPair(n0: Id, hash: string, now: Moment, times: seq<(Moment, Moment)>, e: int, ci: int)
    requires |times| == |DemoEvents| && 0 <= e < |DemoEvents| && 0 <= ci < 12
    ensures var t := SeedTable(AttendanceRecords, n0, hash, now, times);
            && |t| == |DemoEvents| * 12
            && t[12 * e + ci].id == RecordsFrom(n0) + 12 * e + ci
            && var d := t[12 * e + ci].doc;
               && "event_id" in d && d["event_id"] == Ref(EventId(n0, e))
               && "cadet_id" in d && d["cadet_id"] == Ref(CadetId(n0, ProfileOf(ci)))
               && "status" in d && d["status"].Str? && Some(d["status"].s) == StatusAt(Patterns[e], ci)
  {
    PatternsUseKnownLetters();
    RecordDocsAt(n0, |DemoEvents|, now, e, ci);
  }

  /** The key the unique index of attendance_records gives record p. */
  lemma RecordKey(n0: Id, now: Moment, p: int)
    requires 0 <= p < 12 * |DemoEvents|
    ensures var d := RecordDocs(n0, |DemoEvents|, now)[p];
            IndexKey(d, UniqueFields(AttendanceRecords)) == [Ref(EventId(n0, p / 12)), Ref(CadetId(n0, ProfileOf(p % 12)))]
  {
    PatternsUseKnownLetters();
    RecordDocsAt(n0, |DemoEvents|, now, p / 12, p % 12);
    assert 12 * (p / 12) + p % 12 == p;
  }

  lemma RecordsUnique(n0: Id, now: Moment)
    ensures UniqueIn(Entries(RecordsFrom(n0), RecordDocs(n0, |DemoEvents|, now)), UniqueFields(AttendanceRecords))
  {
    var t := Entries(RecordsFrom(n0), RecordDocs(n0, |DemoEvents|, now));
    ProfileOfInjective();
    forall p, q | 0 <= p < q < |t| ensures !Collide(t[p].doc, t[q].doc, UniqueFields(AttendanceRecords)) {
      RecordKey(n0, now, p);
      RecordKey(n0, now, q);
      assert p == 12 * (p / 12) + p % 12 && q == 12 * (q / 12) + q % 12;
    }
  }

  lemma UsersUnique(n0: Id, hash: string, now: Moment)
    ensures UniqueIn(Entries(UsersFrom(n0), UserDocs(hash, now)), UniqueFields(Users))
  {
    var t := Entries(UsersFrom(n0), UserDocs(hash, now));
    EmailsDistinct();
    forall p, q | 0 <= p < q < |t| ensures !Collide(t[p].doc, t[q].doc, UniqueFields(Users)) {
      assert IndexKey(t[p].doc, ["email"]) == [Str(DemoUsers[p].email)];
      assert IndexKey(t[q].doc, ["email"]) == [Str(DemoUsers[q].email)];
    }
  }

  lemma CadetsUnique(n0: Id, hash: string, now: Moment, times: seq<(Moment, Moment)>)
    requires |times| == |DemoEvents|
    ensures UniqueIn(SeedTable(Cadets, n0, hash, now, times), UniqueFields(Cadets))
  {
    var base := Entries(CadetsFrom(n0), CadetDocs(n0));
    var t := SeedTable(Cadets, n0, hash, now, times);
    forall p, q | 0 <= p < q < |t| ensures !Collide(t[p].doc, t[q].doc, UniqueFields(Cadets)) {
      ApplyMovesKeepsOtherFields(base, Moves(n0, 2), p, "user_id");
      ApplyMovesKeepsOtherFields(base, Moves(n0, 2), q, "user_id");
      assert IndexKey(t[p].doc, ["user_id"]) == [Ref(UserId(n0, p + 3))];
      assert IndexKey(t[q].doc, ["user_id"]) == [Ref(UserId(n0, q + 3))];
    }
  }

  lemma FlightsUnique(n0: Id)
    ensures UniqueIn(Entries(FlightsFrom(n0), FlightDocs(n0)), UniqueFields(Flights))
  {
    var t := Entries(FlightsFrom(n0), FlightDocs(n0));
    forall p, q | 0 <= p < q < |t| ensures !Collide(t[p].doc, t[q].doc, UniqueFields(Flights)) {
      assert IndexKey(t[p].doc, ["name"]) == [Str(DemoFlights[p].0)];
      assert IndexKey(t[q].doc, ["name"]) == [Str(DemoFlights[q].0)];
    }
  }

  /** The seeded store breaks no unique index, so create_indexes succeeds. */
  lemma SeedTablesUnique(n0: Id, hash: string, now: Moment, times: seq<(Moment, Moment)>)
    requires |times| == |DemoEvents|
    ensures forall c :: UniqueIn(SeedTable(c, n0, hash, now, times), UniqueFields(c))
  {
    UsersUnique(n0, hash, now);
    CadetsUnique(n0, hash, now, times);
    FlightsUnique(n0);
    RecordsUnique(n0, now);
  }

  // ---------------------------------------------------------------------
  // The dicts populate keeps

  lemma RankNamesDistinct()
    ensures Distinct(RankNames()) && Distinct(FlightNames())
  {
  }

  /** The creators of the events are cadre1 (user 1) and cadre2 (user 2). */
  lemma CreatorsAreUsers()
    ensures forall e :: 0 <= e < |DemoEvents| ==> DemoEvents[e].creator == Usernames(DemoUsers)[CreatorIndex(e)]
  {
  }

  /** The commanders of the flights are profiles 0 and 1. */
  lemma CommandersAreProfiles()
    ensures forall f :: 0 <= f < |DemoFlights| ==> DemoFlights[f].1 == RankNames()[f]
  {
  }

  lemma UserIdsAt(n0: Id)
    ensures forall u :: 0 <= u < |DemoUsers| ==>
              var names := Usernames(DemoUsers);
              names[u] in IdsByName(names, UsersFrom(n0)) && IdsByName(names, UsersFrom(n0))[names[u]] == UserId(n0, u)
  {
    UsernamesDistinct();
    IdsByNameAll(Usernames(DemoUsers), UsersFrom(n0));
  }

  lemma CadetIdsAt(n0: Id)
    ensures forall i :: 0 <= i < |CadetRanks| ==>
              RankNames()[i] in IdsByName(RankNames(), CadetsFrom(n0)) &&
              IdsByName(RankNames(), CadetsFrom(n0))[RankNames()[i]] == CadetId(n0, i)
  {
    RankNamesDistinct();
    IdsByNameAll(RankNames(), CadetsFrom(n0));
  }

  lemma FlightIdsAt(n0: Id)
    ensures forall f :: 0 <= f < |DemoFlights| ==>
              FlightNames()[f] in IdsByName(FlightNames(), FlightsFrom(n0)) &&
              IdsByName(FlightNames(), FlightsFrom(n0))[FlightNames()[f]] == FlightId(n0, f)
  {
    RankNamesDistinct();
    IdsByNameAll(FlightNames(), FlightsFrom(n0));
  }

  lemma EntriesSnoc(first: Id, docs: seq<Doc>, i: int)
    requires 0 <= i < |docs|
    ensures Entries(first, docs[..i + 1]) == Entries(first, docs[..i]) + [Entry(first + i, docs[i])]
  {
  }

  /** The collections other than c are as in s. */
  predicate SameExcept(s: DbState, s': DbState, c: Coll) {
    forall c' :: c' != c ==> Tab(s', c') == Tab(s, c')
  }

  /** With the indexes dropped an insert always succeeds, appending the
      document under the next id. */
  lemma InsertStep(s: DbState, c: Coll, d: Doc)
    requires s.connected && !s.indexed
    ensures var (s', r) := Insert(s, c, d);
            && r == Inserted(s.nextId) && s'.connected && !s'.indexed && s'.nextId == s.nextId + 1
            && Tab(s', c) == Tab(s, c) + [Entry(s.nextId, d)] && SameExcept(s, s', c)
  {
  }

  /** One more insert of a run, indexes dropped: the run grows by one entry
      under the next id. */
  lemma InsertRun(c: Coll, s0: DbState, before: DbState, first: Id, docs: seq<Doc>, i: int)
    requires 0 <= i < |docs| && before.connected && !before.indexed && before.nextId == first + i
    requires Tab(before, c) == Tab(s0, c) + Entries(first, docs[..i]) && SameExcept(s0, before, c)
    ensures var (after, r) := Insert(before, c, docs[i]);
            && r == Inserted(first + i) && after.connected && !after.indexed && after.nextId == first + i + 1
            && Tab(after, c) == Tab(s0, c) + Entries(first, docs[..i + 1]) && SameExcept(s0, after, c)
  {
    InsertStep(before, c, docs[i]);
    EntriesSnoc(first, docs, i);
  }

  /** A flight_id update on the cadets collection, indexes dropped, is SetFlight. */
  lemma UpdateIsSetFlight(s: DbState, id: Id, flightId: Id)
    requires Valid(s) && s.connected && !s.indexed
    ensures Update(s, Cadets, id, map["flight_id" := Ref(flightId)]).0 ==
              s.(tables := s.tables[Cadets := SetFlight(Tab(s, Cadets), id, flightId)])
  {
    if FindId(Tab(s, Cadets), id).None? {
      assert s.tables[Cadets := Tab(s, Cadets)] == s.tables;
    }
  }

  // ---------------------------------------------------------------------
  // populate, step by step on the database

  /** The drop_collection loop: every collection is emptied and the indexes go. */
  method ClearAll(db: Database)
    requires db.Valid() && db.connected
    modifies db
    ensures db.Valid() && db.connected && !db.indexed && db.nextId == old(db.nextId)
    ensures forall c :: Tab(db.State(), c) == []
  {
    for i := 0 to |Dropped|
      invariant db.Valid() && db.connected && db.nextId == old(db.nextId)
      invariant i > 0 ==> !db.indexed
      invariant forall k :: 0 <= k < i ==> Tab(db.State(), Dropped[k]) == []
    {
      db.DropCollection(Dropped[i]);
    }
    forall c ensures Tab(db.State(), c) == [] {
      var k := match c
        case Users => 0 case Cadets => 1 case Events => 2 case EventAssignments => 3
        case AttendanceRecords => 4 case Waivers => 5 case WaiverApprovals => 6 case Flights => 7;
      assert Dropped[k] == c;
    }
  }

  /** An insert loop that keeps each inserted id in a dict under its name
      (user_id_by_username, cadet_id_by_username, flight_id_by_name). */
  method InsertNamed(db: Database, c: Coll, names: seq<string>, docs: seq<Doc>) returns (ids: map<string, Id>)
    requires db.Valid() && db.connected && !db.indexed && |names| == |docs|
    modifies db
    ensures db.Valid() && db.connected && !db.indexed
    ensures db.nextId == old(db.nextId) + |docs|
    ensures Tab(db.State(), c) == Tab(old(db.State()), c) + Entries(old(db.nextId), docs)
    ensures SameExcept(old(db.State()), db.State(), c)
    ensures ids == IdsByName(names, old(db.nextId))
  {
    ghost var keys := Present(names);
    ghost var range := Range(db.nextId, |names|);
    ids := map[];
    for i := 0 to |docs|
      invariant db.Valid() && db.connected && !db.indexed
      invariant db.nextId == old(db.nextId) + i
      invariant Tab(db.State(), c) == Tab(old(db.State()), c) + Entries(old(db.nextId), docs[..i])
      invariant SameExcept(old(db.State()), db.State(), c)
      invariant ids == LastWins(keys[..i], range[..i])
    {
      InsertRun(c, old(db.State()), db.State(), old(db.nextId), docs, i);
      var r := db.InsertOne(c, docs[i]);
      LastWinsStep(keys, range, i);
      ids := ids[names[i] := r.id];
    }
    assert docs[..|docs|] == docs && keys[..|docs|] == keys && range[..|docs|] == range;
  }

  /** The events loop: each inserted id appended to event_ids. */
  method InsertListed(db: Database, c: Coll, docs: seq<Doc>) returns (ids: seq<Id>)
    requires db.Valid() && db.connected && !db.indexed
    modifies db
    ensures db.Valid() && db.connected && !db.indexed
    ensures db.nextId == old(db.nextId) + |docs|
    ensures Tab(db.State(), c) == Tab(old(db.State()), c) + Entries(old(db.nextId), docs)
    ensures SameExcept(old(db.State()), db.State(), c)
    ensures ids == Range(old(db.nextId), |docs|)
  {
    ids := [];
    for i := 0 to |docs|
      invariant db.Valid() && db.connected && !db.indexed
      invariant db.nextId == old(db.nextId) + i
      invariant Tab(db.State(), c) == Tab(old(db.State()), c) + Entries(old(db.nextId), docs[..i])
      invariant SameExcept(old(db.State()), db.State(), c)
      invariant ids == Range(old(db.nextId), i)
    {
      InsertRun(c, old(db.State()), db.State(), old(db.nextId), docs, i);
      var r := db.InsertOne(c, docs[i]);
      ids := ids + [r.id];
    }
    assert docs[..|docs|] == docs;
  }

  lemma ApplyMovesSnoc(t: Table, moves: seq<(Id, Id)>, m: (Id, Id))
    ensures ApplyMoves(t, moves + [m]) == SetFlight(ApplyMoves(t, moves), m.0, m.1)
  {
    assert (moves + [m])[..|moves|] == moves;
  }

  lemma EntriesAppend(first: Id, a: seq<Doc>, b: seq<Doc>, i: int)
    requires 0 <= i < |b|
    ensures Entries(first, a + b[..i + 1]) == Entries(first, a + b[..i]) + [Entry(first + |a| + i, b[i])]
  {
    assert (a + b)[..|a| + i] == a + b[..i];
    assert (a + b)[..|a| + i + 1] == a + b[..i + 1];
    EntriesSnoc(first, a + b, |a| + i);
  }

  /** A flight_id update, indexes dropped, applies one more move. */
  lemma UpdateExtends(base: Table, done: seq<(Id, Id)>, moves: seq<(Id, Id)>, j: int, s0: DbState, before: DbState,
                      id: Id, flightId: Id)
    requires Valid(before) && before.connected && !before.indexed && 0 <= j < |moves|
    requires Tab(before, Cadets) == ApplyMoves(base, done + moves[..j])
    requires SameExcept(s0, before, Cadets) && moves[j] == (id, flightId)
    ensures var after := Update(before, Cadets, id, map["flight_id" := Ref(flightId)]).0;
            && after.connected && !after.indexed && after.nextId == before.nextId
            && Tab(after, Cadets) == ApplyMoves(base, done + moves[..j + 1])
            && SameExcept(s0, after, Cadets)
  {
    UpdateIsSetFlight(before, id, flightId);
    assert moves[..j + 1] == moves[..j] + [(id, flightId)];
    assert done + moves[..j + 1] == (done + moves[..j]) + [(id, flightId)];
    ApplyMovesSnoc(base, done + moves[..j], (id, flightId));
  }

  /** The FLIGHT_ASSIGNMENTS loop: each member's flight_id set with update_one. */
  method AssignMembers(db: Database, cadetIds: map<string, Id>, flightIds: map<string, Id>, ghost n0: Id)
    requires db.Valid() && db.connected && !db.indexed
    requires CadetDictOk(cadetIds, n0) && FlightDictOk(flightIds, n0)
    modifies db
    ensures db.Valid() && db.connected && !db.indexed && db.nextId == old(db.nextId)
    ensures Tab(db.State(), Cadets) == ApplyMoves(Tab(old(db.State()), Cadets), Moves(n0, |FlightAssignments|))
    ensures SameExcept(old(db.State()), db.State(), Cadets)
  {
    MembersAreProfiles();
    MemberProfileInjective();
    ghost var base := Tab(db.State(), Cadets);
    for f := 0 to |FlightAssignments|
      invariant db.Valid() && db.connected && !db.indexed && db.nextId == old(db.nextId)
      invariant Tab(db.State(), Cadets) == ApplyMoves(base, Moves(n0, f))
      invariant SameExcept(old(db.State()), db.State(), Cadets)
    {
      var (flightName, members) := FlightAssignments[f];
      var fid := flightIds[flightName];
      ghost var done := Moves(n0, f);
      assert done + FlightMoves(n0, f)[..0] == done;
      for j := 0 to |members|
        invariant db.Valid() && db.connected && !db.indexed && db.nextId == old(db.nextId)
        invariant Tab(db.State(), Cadets) == ApplyMoves(base, done + FlightMoves(n0, f)[..j])
        invariant SameExcept(old(db.State()), db.State(), Cadets)
      {
        var id := cadetIds[members[j]];
        UpdateExtends(base, done, FlightMoves(n0, f), j, old(db.State()), db.State(), id, fid);
        var r := db.UpdateOne(Cadets, id, map["flight_id" := Ref(fid)]);
      }
      assert FlightMoves(n0, f)[..|members|] == FlightMoves(n0, f);
    }
  }

  /** The letter of cadet ci in event e's pattern, "P" past its end. */
  function StatusChar(e: int, ci: int): char
    requires 0 <= e < |Patterns|
  {
    if 0 <= ci < |Patterns[e]| then Patterns[e][ci] else 'P'
  }

  /** cadet_id_by_username of the cadet at position ci of CADET_USERNAMES. */
  lemma CadetLookup(n0: Id, cadetIds: map<string, Id>, ci: int)
    requires cadetIds == IdsByName(RankNames(), CadetsFrom(n0)) && 0 <= ci < 12
    ensures |CadetUsernames| == 12 && CadetUsernames[ci] in cadetIds
    ensures cadetIds[CadetUsernames[ci]] == CadetId(n0, ProfileOf(ci))
  {
    CadetUsernamesHaveProfiles();
    RankNamesDistinct();
    IdsByNameAt(RankNames(), CadetsFrom(n0), ProfileOf(ci));
  }

  /** user_id_by_username["cadre1"] */
  lemma RecorderLookup(n0: Id, userIds: map<string, Id>)
    requires userIds == IdsByName(Usernames(DemoUsers), UsersFrom(n0))
    ensures "cadre1" in userIds && userIds["cadre1"] == UserId(n0, 1)
  {
    UsernamesDistinct();
    assert Usernames(DemoUsers)[1] == "cadre1";
    IdsByNameAt(Usernames(DemoUsers), UsersFrom(n0), 1);
  }

  lemma StatusCharKnown(e: int, ci: int)
    requires 0 <= e < |DemoEvents| && 0 <= ci < 12
    ensures StatusMap(StatusChar(e, ci)).Some?
    ensures StatusMap(StatusChar(e, ci)).value == (if ci < |Patterns[e]| then StatusMap(Patterns[e][ci]).value else "present")
  {
    PatternsUseKnownLetters();
  }

  lemma SeedRecordDocIs(n0: Id, now: Moment, e: int, ci: int)
    requires 0 <= e < |DemoEvents| && 0 <= ci < 12
    ensures StatusMap(StatusChar(e, ci)).Some?
    ensures SeedRecordDoc(n0, e, ci, now) ==
              RecordDoc(EventId(n0, e), CadetId(n0, ProfileOf(ci)), StatusMap(StatusChar(e, ci)).value, UserId(n0, 1), now)
  {
    StatusCharKnown(e, ci);
  }

  /** An insert off the indexes extends a run of inserts by one entry. */
  lemma InsertExtends(c: Coll, first: Id, a: seq<Doc>, b: seq<Doc>, i: int, s0: DbState, before: DbState, d: Doc)
    requires 0 <= i < |b| && before.connected && !before.indexed
    requires Tab(before, c) == Entries(first, a + b[..i])
    requires before.nextId == first + |a| + i && SameExcept(s0, before, c) && d == b[i]
    ensures var after := Insert(before, c, d).0;
            && after.connected && !after.indexed && after.nextId == before.nextId + 1
            && Tab(after, c) == Entries(first, a + b[..i + 1])
            && SameExcept(s0, after, c)
  {
    InsertStep(before, c, d);
    EntriesAppend(first, a, b, i);
  }

  /** cadet_id_by_username at position ci of CADET_USERNAMES. */
  lemma RosterLookup(cadetIds: map<string, Id>, n0: Id, ci: int)
    requires RosterDictOk(cadetIds, n0) && 0 <= ci < 12
    ensures |CadetUsernames| == 12 && CadetUsernames[ci] in cadetIds
    ensures cadetIds[CadetUsernames[ci]] == CadetId(n0, ProfileOf(ci))
  {
  }

  /** One pass of the inner attendance loop: the record of event e for the
      cadet at position ci of CADET_USERNAMES. */
  method InsertRecordAt(db: Database, e: nat, ci: nat, eventId: Id, cadetIds: map<string, Id>, userIds: map<string, Id>,
                        now: Moment, ghost n0: Id, ghost s0: DbState)
    requires db.Valid() && db.connected && !db.indexed
    requires e < |DemoEvents| && ci < 12 && eventId == EventId(n0, e)
    requires RosterDictOk(cadetIds, n0)
    requires "cadre1" in userIds && userIds["cadre1"] == UserId(n0, 1)
    requires db.nextId == RecordsFrom(n0) + |RecordDocs(n0, e, now)| + ci
    requires Tab(db.State(), AttendanceRecords) == Entries(RecordsFrom(n0), RecordDocs(n0, e, now) + EventRecords(n0, e, now)[..ci])
    requires SameExcept(s0, db.State(), AttendanceRecords)
    modifies db
    ensures db.Valid() && db.connected && !db.indexed && db.nextId == old(db.nextId) + 1
    ensures Tab(db.State(), AttendanceRecords) == Entries(RecordsFrom(n0), RecordDocs(n0, e, now) + EventRecords(n0, e, now)[..ci + 1])
    ensures SameExcept(s0, db.State(), AttendanceRecords)
  {
    RosterLookup(cadetIds, n0, ci);
    var pattern := Patterns[e];
    var statusChar := if ci < |pattern| then pattern[ci] else 'P';
    SeedRecordDocIs(n0, now, e, ci);
    assert statusChar == StatusChar(e, ci);
    var d := RecordDoc(eventId, cadetIds[CadetUsernames[ci]], StatusMap(statusChar).value, userIds["cadre1"], now);
    InsertExtends(AttendanceRecords, RecordsFrom(n0), RecordDocs(n0, e, now), EventRecords(n0, e, now), ci,
                  s0, db.State(), d);
    var r := db.InsertOne(AttendanceRecords, d);
  }

  /** The inner attendance loop: event e's record for each cadet of
      CADET_USERNAMES, counted on from recCount. */
  method InsertEventRecords(db: Database, e: nat, eventId: Id, cadetIds: map<string, Id>, userIds: map<string, Id>,
                            now: Moment, recCount: nat, ghost n0: Id) returns (count: nat)
    requires db.Valid() && db.connected && !db.indexed
    requires e < |DemoEvents| && eventId == EventId(n0, e)
    requires RosterDictOk(cadetIds, n0)
    requires "cadre1" in userIds && userIds["cadre1"] == UserId(n0, 1)
    requires recCount == 12 * e && db.nextId == RecordsFrom(n0) + recCount
    requires Tab(db.State(), AttendanceRecords) == Entries(RecordsFrom(n0), RecordDocs(n0, e, now))
    modifies db
    ensures db.Valid() && db.connected && !db.indexed
    ensures count == 12 * (e + 1) && db.nextId == RecordsFrom(n0) + count
    ensures Tab(db.State(), AttendanceRecords) == Entries(RecordsFrom(n0), RecordDocs(n0, e + 1, now))
    ensures SameExcept(old(db.State()), db.State(), AttendanceRecords)
  {
    count := recCount;
    assert RecordDocs(n0, e, now) + EventRecords(n0, e, now)[..0] == RecordDocs(n0, e, now);
    for ci := 0 to 12
      invariant db.Valid() && db.connected && !db.indexed
      invariant count == 12 * e + ci && db.nextId == RecordsFrom(n0) + count
      invariant Tab(db.State(), AttendanceRecords) ==
                  Entries(RecordsFrom(n0), RecordDocs(n0, e, now) + EventRecords(n0, e, now)[..ci])
      invariant SameExcept(old(db.State()), db.State(), AttendanceRecords)
    {
      InsertRecordAt(db, e, ci, eventId, cadetIds, userIds, now, n0, old(db.State()));
      count := count + 1;
    }
    assert EventRecords(n0, e, now)[..12] == EventRecords(n0, e, now);
  }

  /** The attendance loop: one record per event and cadet, counted. */
  method InsertRecords(db: Database, eventIds: seq<Id>, cadetIds: map<string, Id>, userIds: map<string, Id>,
                       now: Moment, ghost n0: Id) returns (recCount: nat)
    requires db.Valid() && db.connected && !db.indexed
    requires eventIds == Range(EventsFrom(n0), |DemoEvents|)
    requires RosterDictOk(cadetIds, n0) && UserDictOk(userIds, n0)
    requires Tab(db.State(), AttendanceRecords) == [] && db.nextId == RecordsFrom(n0)
    modifies db
    ensures db.Valid() && db.connected && !db.indexed
    ensures recCount == |DemoEvents| * |CadetUsernames| && db.nextId == RecordsFrom(n0) + recCount
    ensures Tab(db.State(), AttendanceRecords) == Entries(RecordsFrom(n0), RecordDocs(n0, |DemoEvents|, now))
    ensures SameExcept(old(db.State()), db.State(), AttendanceRecords)
  {
    recCount := 0;
    for e := 0 to |eventIds|
      invariant db.Valid() && db.connected && !db.indexed
      invariant recCount == 12 * e && db.nextId == RecordsFrom(n0) + recCount
      invariant Tab(db.State(), AttendanceRecords) == Entries(RecordsFrom(n0), RecordDocs(n0, e, now))
      invariant SameExcept(old(db.State()), db.State(), AttendanceRecords)
    {
      recCount := InsertEventRecords(db, e, eventIds[e], cadetIds, userIds, now, recCount, n0);
    }
  }

  // ---------------------------------------------------------------------
  // The documents as populate builds them, through its dicts

  /** The cadet profiles, each user id looked up in user_id_by_username. */
  function ProfileDocs(userIds: map<string, Id>): (r: seq<Doc>)
    requires forall i :: 0 <= i < |CadetRanks| ==> CadetRanks[i].0 in userIds
    ensures |r| == |CadetRanks|
  {
    seq(|CadetRanks|, i requires 0 <= i < |CadetRanks| =>
          SeedCadetDoc(userIds[CadetRanks[i].0], CadetRanks[i].1, DemoUsers[i + 3]))
  }

  /** The flights, each commander looked up in cadet_id_by_username. */
  function CommandedFlightDocs(cadetIds: map<string, Id>): (r: seq<Doc>)
    requires forall f :: 0 <= f < |DemoFlights| ==> DemoFlights[f].1 in cadetIds
    ensures |r| == |DemoFlights|
  {
    seq(|DemoFlights|, f requires 0 <= f < |DemoFlights| => FlightDoc(DemoFlights[f].0, cadetIds[DemoFlights[f].1]))
  }

  /** The events, each creator looked up in user_id_by_username. */
  function CreatedEventDocs(userIds: map<string, Id>, times: seq<(Moment, Moment)>, now: Moment): (r: seq<Doc>)
    requires |times| == |DemoEvents|
    requires forall e :: 0 <= e < |DemoEvents| ==> DemoEvents[e].creator in userIds
    ensures |r| == |DemoEvents|
  {
    seq(|DemoEvents|, e requires 0 <= e < |DemoEvents| =>
          EventDoc(DemoEvents[e].name, DemoEvents[e].kind, times[e].0, times[e].1, userIds[DemoEvents[e].creator], now))
  }

  /** user_id_by_username after the users loop, entry by entry. */
  lemma UserDict(n0: Id, userIds: map<string, Id>)
    requires userIds == IdsByName(Usernames(DemoUsers), UsersFrom(n0))
    ensures forall i :: 0 <= i < |CadetRanks| ==> CadetRanks[i].0 in userIds && userIds[CadetRanks[i].0] == UserId(n0, i + 3)
    ensures forall e :: 0 <= e < |DemoEvents| ==>
              DemoEvents[e].creator in userIds && userIds[DemoEvents[e].creator] == UserId(n0, CreatorIndex(e))
    ensures "cadre1" in userIds && userIds["cadre1"] == UserId(n0, 1)
  {
    UserIdsAt(n0);
    RanksFollowUsers();
    CreatorsAreUsers();
    RecorderLookup(n0, userIds);
    forall i | 0 <= i < |CadetRanks|
      ensures CadetRanks[i].0 in userIds && userIds[CadetRanks[i].0] == UserId(n0, i + 3)
    {
      assert CadetRanks[i].0 == RankNames()[i] == Usernames(DemoUsers)[i + 3];
    }
  }

  /** cadet_id_by_username after the cadets loop, entry by entry. */
  lemma CadetDict(n0: Id, cadetIds: map<string, Id>)
    requires cadetIds == IdsByName(RankNames(), CadetsFrom(n0))
    ensures forall i :: 0 <= i < |CadetRanks| ==> CadetRanks[i].0 in cadetIds && cadetIds[CadetRanks[i].0] == CadetId(n0, i)
    ensures forall f :: 0 <= f < |DemoFlights| ==> DemoFlights[f].1 in cadetIds && cadetIds[DemoFlights[f].1] == CadetId(n0, f)
    ensures |CadetUsernames| == 12
    ensures forall ci :: 0 <= ci < 12 ==> CadetUsernames[ci] in cadetIds && cadetIds[CadetUsernames[ci]] == CadetId(n0, ProfileOf(ci))
  {
    CadetIdsAt(n0);
    CommandersAreProfiles();
    forall ci | 0 <= ci < 12
      ensures |CadetUsernames| == 12 && CadetUsernames[ci] in cadetIds && cadetIds[CadetUsernames[ci]] == CadetId(n0, ProfileOf(ci))
    {
      CadetLookup(n0, cadetIds, ci);
    }
    CadetUsernamesHaveProfiles();
  }

  /** flight_id_by_name after the flights loop, entry by entry. */
  lemma FlightDict(n0: Id, flightIds: map<string, Id>)
    requires flightIds == IdsByName(FlightNames(), FlightsFrom(n0))
    ensures forall f :: 0 <= f < |DemoFlights| ==> DemoFlights[f].0 in flightIds && flightIds[DemoFlights[f].0] == FlightId(n0, f)
  {
    FlightIdsAt(n0);
  }

  lemma ProfileDocsAre(n0: Id, userIds: map<string, Id>)
    requires forall i :: 0 <= i < |CadetRanks| ==> CadetRanks[i].0 in userIds && userIds[CadetRanks[i].0] == UserId(n0, i + 3)
    ensures ProfileDocs(userIds) == CadetDocs(n0)
  {
  }

  lemma CommandedFlightDocsAre(n0: Id, cadetIds: map<string, Id>)
    requires forall f :: 0 <= f < |DemoFlights| ==> DemoFlights[f].1 in cadetIds && cadetIds[DemoFlights[f].1] == CadetId(n0, f)
    ensures CommandedFlightDocs(cadetIds) == FlightDocs(n0)
  {
  }

  lemma CreatedEventDocsAre(n0: Id, userIds: map<string, Id>, times: seq<(Moment, Moment)>, now: Moment)
    requires |times| == |DemoEvents|
    requires forall e :: 0 <= e < |DemoEvents| ==>
               DemoEvents[e].creator in userIds && userIds[DemoEvents[e].creator] == UserId(n0, CreatorIndex(e))
    ensures CreatedEventDocs(userIds, times, now) == EventDocs(n0, times, now)
  {
  }

  // ---------------------------------------------------------------------
  // populate, phase by phase

  /** user_id_by_username as the later loops use it. */
  predicate UserDictOk(userIds: map<string, Id>, n0: Id) {
    && (forall i :: 0 <= i < |CadetRanks| ==> CadetRanks[i].0 in userIds && userIds[CadetRanks[i].0] == UserId(n0, i + 3))
    && (forall e :: 0 <= e < |DemoEvents| ==>
          DemoEvents[e].creator in userIds && userIds[DemoEvents[e].creator] == UserId(n0, CreatorIndex(e)))
    && "cadre1" in userIds && userIds["cadre1"] == UserId(n0, 1)
  }

  /** cadet_id_by_username as the later loops use it. */
  predicate CadetDictOk(cadetIds: map<string, Id>, n0: Id) {
    && (forall i :: 0 <= i < |CadetRanks| ==> CadetRanks[i].0 in cadetIds && cadetIds[CadetRanks[i].0] == CadetId(n0, i))
    && (forall f :: 0 <= f < |DemoFlights| ==> DemoFlights[f].1 in cadetIds && cadetIds[DemoFlights[f].1] == CadetId(n0, f))
  }

  /** cadet_id_by_username on CADET_USERNAMES, as the attendance loop uses it. */
  predicate RosterDictOk(cadetIds: map<string, Id>, n0: Id) {
    && |CadetUsernames| == 12
    && (forall ci :: 0 <= ci < 12 ==> CadetUsernames[ci] in cadetIds && cadetIds[CadetUsernames[ci]] == CadetId(n0, ProfileOf(ci)))
  }

  /** flight_id_by_name as the assignment loop uses it. */
  predicate FlightDictOk(flightIds: map<string, Id>, n0: Id) {
    forall f :: 0 <= f < |DemoFlights| ==> DemoFlights[f].0 in flightIds && flightIds[DemoFlights[f].0] == FlightId(n0, f)
  }

  /** The users loop, from an empty users collection at id n0. */
  method SeedUsers(db: Database, hash: string, now: Moment, ghost n0: Id) returns (userIds: map<string, Id>)
    requires db.Valid() && db.connected && !db.indexed && db.nextId == n0 && Tab(db.State(), Users) == []
    modifies db
    ensures db.Valid() && db.connected && !db.indexed && db.nextId == CadetsFrom(n0)
    ensures Tab(db.State(), Users) == Entries(UsersFrom(n0), UserDocs(hash, now))
    ensures SameExcept(old(db.State()), db.State(), Users)
    ensures UserDictOk(userIds, n0)
  {
    userIds := InsertNamed(db, Users, Usernames(DemoUsers), UserDocs(hash, now));
    UserDict(n0, userIds);
    assert [] + Entries(UsersFrom(n0), UserDocs(hash, now)) == Entries(UsersFrom(n0), UserDocs(hash, now));
  }

  /** The cadet profiles loop. */
  method SeedCadets(db: Database, userIds: map<string, Id>, ghost n0: Id) returns (cadetIds: map<string, Id>)
    requires db.Valid() && db.connected && !db.indexed && db.nextId == CadetsFrom(n0) && Tab(db.State(), Cadets) == []
    requires UserDictOk(userIds, n0)
    modifies db
    ensures db.Valid() && db.connected && !db.indexed && db.nextId == FlightsFrom(n0)
    ensures Tab(db.State(), Cadets) == Entries(CadetsFrom(n0), CadetDocs(n0))
    ensures SameExcept(old(db.State()), db.State(), Cadets)
    ensures CadetDictOk(cadetIds, n0) && RosterDictOk(cadetIds, n0)
  {
    ProfileDocsAre(n0, userIds);
    cadetIds := InsertNamed(db, Cadets, RankNames(), ProfileDocs(userIds));
    CadetDict(n0, cadetIds);
    assert [] + Entries(CadetsFrom(n0), CadetDocs(n0)) == Entries(CadetsFrom(n0), CadetDocs(n0));
  }

  /** The flights loop. */
  method SeedFlights(db: Database, cadetIds: map<string, Id>, ghost n0: Id) returns (flightIds: map<string, Id>)
    requires db.Valid() && db.connected && !db.indexed && db.nextId == FlightsFrom(n0) && Tab(db.State(), Flights) == []
    requires CadetDictOk(cadetIds, n0)
    modifies db
    ensures db.Valid() && db.connected && !db.indexed && db.nextId == EventsFrom(n0)
    ensures Tab(db.State(), Flights) == Entries(FlightsFrom(n0), FlightDocs(n0))
    ensures SameExcept(old(db.State()), db.State(), Flights)
    ensures FlightDictOk(flightIds, n0)
  {
    CommandedFlightDocsAre(n0, cadetIds);
    flightIds := InsertNamed(db, Flights, FlightNames(), CommandedFlightDocs(cadetIds));
    FlightDict(n0, flightIds);
    assert [] + Entries(FlightsFrom(n0), FlightDocs(n0)) == Entries(FlightsFrom(n0), FlightDocs(n0));
  }

  /** The events loop. */
  method SeedEvents(db: Database, userIds: map<string, Id>, times: seq<(Moment, Moment)>, now: Moment, ghost n0: Id)
      returns (eventIds: seq<Id>)
    requires db.Valid() && db.connected && !db.indexed && db.nextId == EventsFrom(n0) && Tab(db.State(), Events) == []
    requires |times| == |DemoEvents|
    requires UserDictOk(userIds, n0)
    modifies db
    ensures db.Valid() && db.connected && !db.indexed && db.nextId == RecordsFrom(n0)
    ensures Tab(db.State(), Events) == Entries(EventsFrom(n0), EventDocs(n0, times, now))
    ensures SameExcept(old(db.State()), db.State(), Events)
    ensures eventIds == Range(EventsFrom(n0), |DemoEvents|)
  {
    CreatedEventDocsAre(n0, userIds, times, now);
    eventIds := InsertListed(db, Events, CreatedEventDocs(userIds, times, now));
    assert [] + Entries(EventsFrom(n0), EventDocs(n0, times, now)) == Entries(EventsFrom(n0), EventDocs(n0, times, now));
  }

  /** The collections populate leaves empty. */
  predicate OthersEmpty(s: DbState) {
    Tab(s, EventAssignments) == [] && Tab(s, Waivers) == [] && Tab(s, WaiverApprovals) == []
  }

  /** The users loop, then the cadet profiles loop. */
  method SeedPeople(db: Database, hash: string, now: Moment, ghost n0: Id)
      returns (userIds: map<string, Id>, cadetIds: map<string, Id>)
    requires db.Valid() && db.connected && !db.indexed && db.nextId == n0
    requires Tab(db.State(), Users) == [] && Tab(db.State(), Cadets) == []
    modifies db
    ensures db.Valid() && db.connected && !db.indexed && db.nextId == FlightsFrom(n0)
    ensures Tab(db.State(), Users) == Entries(UsersFrom(n0), UserDocs(hash, now))
    ensures Tab(db.State(), Cadets) == Entries(CadetsFrom(n0), CadetDocs(n0))
    ensures forall c :: c != Users && c != Cadets ==> Tab(db.State(), c) == Tab(old(db.State()), c)
    ensures UserDictOk(userIds, n0) && CadetDictOk(cadetIds, n0) && RosterDictOk(cadetIds, n0)
  {
    userIds := SeedUsers(db, hash, now, n0);
    cadetIds := SeedCadets(db, userIds, n0);
  }

  /** The flights loop, then the flight assignments. */
  method SeedUnits(db: Database, cadetIds: map<string, Id>, ghost n0: Id)
    requires db.Valid() && db.connected && !db.indexed && db.nextId == FlightsFrom(n0)
    requires Tab(db.State(), Flights) == [] && CadetDictOk(cadetIds, n0)
    modifies db
    ensures db.Valid() && db.connected && !db.indexed && db.nextId == EventsFrom(n0)
    ensures Tab(db.State(), Flights) == Entries(FlightsFrom(n0), FlightDocs(n0))
    ensures Tab(db.State(), Cadets) == ApplyMoves(Tab(old(db.State()), Cadets), Moves(n0, |FlightAssignments|))
    ensures forall c :: c != Flights && c != Cadets ==> Tab(db.State(), c) == Tab(old(db.State()), c)
  {
    var flightIds := SeedFlights(db, cadetIds, n0);
    AssignMembers(db, cadetIds, flightIds, n0);
  }

  /** Users, profiles, flights and flight membership, from an empty store. */
  method SeedRoster(db: Database, hash: string, now: Moment, times: seq<(Moment, Moment)>, ghost n0: Id)
      returns (userIds: map<string, Id>, cadetIds: map<string, Id>)
    requires db.Valid() && db.connected && !db.indexed && db.nextId == n0 && |times| == |DemoEvents|
    requires forall c :: Tab(db.State(), c) == []
    modifies db
    ensures db.Valid() && db.connected && !db.indexed && db.nextId == EventsFrom(n0)
    ensures Tab(db.State(), Users) == SeedTable(Users, n0, hash, now, times)
    ensures Tab(db.State(), Cadets) == SeedTable(Cadets, n0, hash, now, times)
    ensures Tab(db.State(), Flights) == SeedTable(Flights, n0, hash, now, times)
    ensures Tab(db.State(), Events) == [] && Tab(db.State(), AttendanceRecords) == [] && OthersEmpty(db.State())
    ensures UserDictOk(userIds, n0) && RosterDictOk(cadetIds, n0)
  {
    ghost var s0 := db.State();
    userIds, cadetIds := SeedPeople(db, hash, now, n0);
    ghost var s1 := db.State();
    SeedUnits(db, cadetIds, n0);
    RosterTables(s0, s1, db.State(), n0, hash, now, times);
  }

  /** The two roster phases together leave users, cadets and flights as
      SeedTable says and every other collection empty. */
  lemma RosterTables(s0: DbState, s1: DbState, s2: DbState, n0: Id, hash: string, now: Moment, times: seq<(Moment, Moment)>)
    requires |times| == |DemoEvents|
    requires forall c :: Tab(s0, c) == []
    requires Tab(s1, Users) == Entries(UsersFrom(n0), UserDocs(hash, now))
    requires Tab(s1, Cadets) == Entries(CadetsFrom(n0), CadetDocs(n0))
    requires forall c :: c != Users && c != Cadets ==> Tab(s1, c) == Tab(s0, c)
    requires Tab(s2, Flights) == Entries(FlightsFrom(n0), FlightDocs(n0))
    requires Tab(s2, Cadets) == ApplyMoves(Tab(s1, Cadets), Moves(n0, |FlightAssignments|))
    requires forall c :: c != Flights && c != Cadets ==> Tab(s2, c) == Tab(s1, c)
    ensures Tab(s2, Users) == SeedTable(Users, n0, hash, now, times)
    ensures Tab(s2, Cadets) == SeedTable(Cadets, n0, hash, now, times)
    ensures Tab(s2, Flights) == SeedTable(Flights, n0, hash, now, times)
    ensures Tab(s2, Events) == [] && Tab(s2, AttendanceRecords) == [] && OthersEmpty(s2)
  {
    MembersAreProfiles();
    assert Tab(s2, Users) == Tab(s1, Users);
    assert Tab(s2, Events) == Tab(s1, Events) == Tab(s0, Events);
    assert Tab(s2, AttendanceRecords) == Tab(s1, AttendanceRecords) == Tab(s0, AttendanceRecords);
    assert Tab(s2, EventAssignments) == Tab(s1, EventAssignments) == Tab(s0, EventAssignments);
    assert Tab(s2, Waivers) == Tab(s1, Waivers) == Tab(s0, Waivers);
    assert Tab(s2, WaiverApprovals) == Tab(s1, WaiverApprovals) == Tab(s0, WaiverApprovals);
  }

  /** Events and attendance records, after the roster. */
  method SeedAttendance(db: Database, userIds: map<string, Id>, cadetIds: map<string, Id>, now: Moment,
                        times: seq<(Moment, Moment)>, ghost n0: Id) returns (recCount: nat)
    requires db.Valid() && db.connected && !db.indexed && db.nextId == EventsFrom(n0) && |times| == |DemoEvents|
    requires Tab(db.State(), Events) == [] && Tab(db.State(), AttendanceRecords) == []
    requires UserDictOk(userIds, n0) && RosterDictOk(cadetIds, n0)
    modifies db
    ensures db.Valid() && db.connected && !db.indexed && db.nextId == n0 + SeededIds
    ensures recCount == |DemoEvents| * |CadetUsernames|
    ensures Tab(db.State(), Events) == Entries(EventsFrom(n0), EventDocs(n0, times, now))
    ensures Tab(db.State(), AttendanceRecords) == Entries(RecordsFrom(n0), RecordDocs(n0, |DemoEvents|, now))
    ensures forall c :: c != Events && c != AttendanceRecords ==> Tab(db.State(), c) == Tab(old(db.State()), c)
  {
    var eventIds := SeedEvents(db, userIds, times, now, n0);
    ghost var s5 := db.State();
    assert Tab(s5, AttendanceRecords) == Tab(old(db.State()), AttendanceRecords);
    recCount := InsertRecords(db, eventIds, cadetIds, userIds, now, n0);
  }

  /** The phases together leave every collection as SeedTable says. */
  lemma SeededTables(s4: DbState, s6: DbState, n0: Id, hash: string, now: Moment, times: seq<(Moment, Moment)>)
    requires |times| == |DemoEvents|
    requires Tab(s4, Users) == SeedTable(Users, n0, hash, now, times)
    requires Tab(s4, Cadets) == SeedTable(Cadets, n0, hash, now, times)
    requires Tab(s4, Flights) == SeedTable(Flights, n0, hash, now, times)
    requires OthersEmpty(s4)
    requires Tab(s6, Events) == Entries(EventsFrom(n0), EventDocs(n0, times, now))
    requires Tab(s6, AttendanceRecords) == Entries(RecordsFrom(n0), RecordDocs(n0, |DemoEvents|, now))
    requires forall c :: c != Events && c != AttendanceRecords ==> Tab(s6, c) == Tab(s4, c)
    ensures forall c :: Tab(s6, c) == SeedTable(c, n0, hash, now, times)
  {
    forall c ensures Tab(s6, c) == SeedTable(c, n0, hash, now, times) {
      match c
      case Users =>
      case Cadets =>
      case Flights =>
      case Events =>
      case AttendanceRecords =>
      case EventAssignments =>
      case Waivers =>
      case WaiverApprovals =>
    }
  }

  /** The seeded store takes its unique indexes, leaving the collections as they are. */
  lemma SeededStoreIndexes(s: DbState, n0: Id, hash: string, now: Moment, times: seq<(Moment, Moment)>)
    requires |times| == |DemoEvents| && s.connected
    requires forall c :: Tab(s, c) == SeedTable(c, n0, hash, now, times)
    ensures CreateIndexes(s) == (s.(indexed := true), true)
    ensures forall c :: Tab(CreateIndexes(s).0, c) == SeedTable(c, n0, hash, now, times)
  {
    SeedTablesUnique(n0, hash, now, times);
    assert AllUnique(s);
  }

  /** The number of ids populate hands out: users, profiles, flights,
      events and records. */
  const SeededIds: nat := 15 + 12 + 2 + 7 + 84

  /** populate on the database: when the store is unreachable nothing is
      written and the run ends (exit status 1, here ok false); otherwise
      every collection ends as SeedTable says, the indexes are rebuilt and
      the record count is 7 x 12. */
  method Populate(db: Database, hash: string, now: Moment, times: seq<(Moment, Moment)>) returns (ok: bool, recCount: nat)
    requires db.Valid() && |times| == |DemoEvents|
    modifies db
    ensures db.Valid()
    ensures !old(db.connected) ==> !ok && recCount == 0 && db.State() == old(db.State())
    ensures old(db.connected) ==> ok && db.connected && db.indexed && db.nextId == old(db.nextId) + SeededIds
    ensures old(db.connected) ==> recCount == |DemoEvents| * |CadetUsernames|
    ensures old(db.connected) ==> forall c :: Tab(db.State(), c) == SeedTable(c, old(db.nextId), hash, now, times)
  {
    if !db.connected {
      return false, 0;
    }
    ghost var n0 := db.nextId;
    ClearAll(db);
    var userIds, cadetIds := SeedRoster(db, hash, now, times, n0);
    ghost var roster := db.State();
    recCount := SeedAttendance(db, userIds, cadetIds, now, times, n0);
    SeededTables(roster, db.State(), n0, hash, now, times);
    SeededStoreIndexes(db.State(), n0, hash, now, times);
    ok := db.BuildIndexes();
  }
}
