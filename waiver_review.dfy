/** pages/6_Waiver_Review.py: reviewers list waivers, filtered by status,
    flight and a free-text search, newest first, each joined with its
    attendance record, event, cadet, user and flight; a pending waiver can
    be approved or denied. */
module WaiverReview {
  import opened Common
  import opened Ordering
  import opened Store
  import opened Crud
  import Auth

  // ---------------------------------------------------------------------
  // The approver

  /** Who records the decisions. */
  datatype Approver = MissingEmail | UnknownApprover | ApproverId(id: Id)

  /** The approver for a given email: the page stops when the email is empty
      or no user has it. */
  function ResolveApprover(s: DbState, email: string): (r: Approver)
    ensures r.MissingEmail? <==> email == ""
    ensures r.ApproverId? ==> exists i :: 0 <= i < |Tab(s, Users)| && Tab(s, Users)[i].id == r.id &&
                                          Matches(Tab(s, Users)[i], "email", Str(email))
  {
    if email == "" then MissingEmail
    else match GetUserByEmail(s, email)
      case None => UnknownApprover
      case Some(u) =>
        var i :| 0 <= i < |Tab(s, Users)| && Tab(s, Users)[i] == u;
        ApproverId(u.id)
  }

  /** The approver email as the page reads it: from the current-user record,
      which never holds an email. */
  function ApproverEmailAsWritten(user: Auth.CurrentUser): string {
    match Auth.Field(user, "email")
    case Some(Str(e)) => e
    case _ => ""
  }

  /** As written, every signed-in reviewer is stopped for a missing email,
      even one whose entry in the users file has an email, which the
      intended lookup passes on. */
  lemma ApproverAlwaysMissing(session: Auth.Session, s: DbState)
    requires session.authenticated
    ensures ResolveApprover(s, ApproverEmailAsWritten(Auth.GetCurrentUser(session).value)) == MissingEmail
    ensures Auth.FileEmail(session) != "" ==> ResolveApprover(s, Auth.FileEmail(session)) != MissingEmail
  {
  }

  // ---------------------------------------------------------------------
  // Filters and order

  /** The status text the filter compares: `(w.get("status") or "")`. */
  function StatusText(d: Doc): string {
    TextOf(d, "status").GetOr("")
  }

  /** The status a card shows: missing or empty reads as "pending". */
  function ShownStatus(d: Doc): (r: string)
    ensures StatusText(d) == "" ==> r == "pending"
    ensures StatusText(d) != "" ==> r == Lower(StatusText(d))
  {
    var t := StatusText(d);
    Lower(if t == "" then "pending" else t)
  }

  /** The status filter: "all" keeps every waiver, any other choice keeps
      those whose lower-cased status equals it, in their order. */
  function FilterStatus(ws: Table, choice: string): (r: Table)
    ensures choice == "all" ==> r == ws
    ensures choice != "all" ==> forall w :: w in r <==> w in ws && Lower(StatusText(w.doc)) == choice
    ensures |r| <= |ws|
  {
    if choice == "all" || ws == [] then ws
    else
      var rest := FilterStatus(ws[1..], choice);
      if Lower(StatusText(ws[0].doc)) == choice then [ws[0]] + rest else rest
  }

  /** A waiver without a status is kept only by "all". */
  lemma NoStatusMatchesOnlyAll(ws: Table, choice: string, w: Entry)
    requires w in ws && StatusText(w.doc) == "" && choice in ["pending", "approved", "denied"]
    ensures w !in FilterStatus(ws, choice)
    ensures w in FilterStatus(ws, "all")
  {
  }

  /** The sort key: created_at, or datetime.min when it is missing. */
  function CreatedKey(d: Doc): (k: Key)
    ensures k.Least? || k.Stamp?
    ensures TimeOf(d, "created_at").None? ==> k == Least
  {
    match TimeOf(d, "created_at")
    case Some(m) => Stamp(m.stamp)
    case None => Least
  }

  function CreatedPairs(ws: Table): (r: seq<(Key, Entry)>)
    ensures |r| == |ws|
    ensures forall i :: 0 <= i < |ws| ==> r[i] == (CreatedKey(ws[i].doc), ws[i])
  {
    seq(|ws|, i requires 0 <= i < |ws| => (CreatedKey(ws[i].doc), ws[i]))
  }

  /** `waivers.sort(key=created_at or datetime.min, reverse=True)`. */
  function NewestFirst(ws: Table): (r: Table)
    ensures |r| == |ws|
  {
    Values(SortByKey(CreatedPairs(ws), true))
  }

  /** The sort puts later creation times first, keeps every waiver, keeps
      waivers created at the same time in their order, and puts the waivers
      without a creation time last. */
  lemma NewestFirstOrder(ws: Table, k: Key)
    ensures var p := SortByKey(CreatedPairs(ws), true);
            forall i, j :: 0 <= i < j < |p| ==> KeyLe(p[j].0, p[i].0)
    ensures var p := SortByKey(CreatedPairs(ws), true);
            forall i, j :: 0 <= i < j < |p| && p[i].0 == Least ==> p[j].0 == Least
    ensures multiset(NewestFirst(ws)) == multiset(ws)
    ensures WithKey(SortByKey(CreatedPairs(ws), true), k) == WithKey(CreatedPairs(ws), k)
  {
    var p := SortByKey(CreatedPairs(ws), true);
    SortByKeySorted(CreatedPairs(ws), true);
    SortByKeyStable(CreatedPairs(ws), k, true);
    ValuesMultiset(p, CreatedPairs(ws));
    assert Values(CreatedPairs(ws)) == ws;
    forall i, j | 0 <= i < j < |p| && p[i].0 == Least
      ensures p[j].0 == Least
    {
      assert Precedes(p[i].0, p[j].0, true);
    }
  }

  // ---------------------------------------------------------------------
  // The join

  /** The flight text the filter compares with: "Unassigned" unless the
      cadet's flight resolves, then its stored name. */
  function FlightName(s: DbState, cadet: Option<Entry>): (r: Value)
    ensures cadet.None? ==> r == Str("Unassigned")
    ensures r == Str("Unassigned") || exists f :: f in Tab(s, Flights) && "name" in f.doc && r == f.doc["name"]
  {
    if cadet.None? then Str("Unassigned")
    else match Follow(s, Flights, cadet.value.doc, "flight_id")
      case None => Str("Unassigned")
      case Some(f) => if "name" in f.doc then f.doc["name"] else Str("Unassigned")
  }

  /** The cadet's name as shown: the user's name, "None" when the user has
      none, "Unknown cadet" when there is no user. */
  function CadetName(user: Option<Entry>): (r: string)
    ensures user.None? ==> r == "Unknown cadet"
    ensures user.Some? && "name" !in user.value.doc ==> r == "None"
    ensures user.Some? && "name" in user.value.doc ==> r == Show(user.value.doc["name"])
  {
    match user
    case None => "Unknown cadet"
    case Some(u) => if "name" in u.doc then Show(u.doc["name"]) else "None"
  }

  /** The cadet's email as shown: "" when there is no user. */
  function CadetEmail(user: Option<Entry>): string {
    match user
    case None => ""
    case Some(u) => if "email" in u.doc then Show(u.doc["email"]) else "None"
  }

  /** The search: an empty query keeps everything, otherwise the query must
      occur in the lower-cased "name email". */
  predicate SearchKeeps(name: string, email: string, query: string) {
    query == "" || Contains(Haystack(name, email), query)
  }

  /** The text searched: `f"{name} {email}".lower()`. */
  function Haystack(name: string, email: string): string {
    Lower(name + " " + email)
  }

  /** What one waiver's card shows. */
  datatype Card = Card(
    waiverId: Id,
    status: string,
    cadetName: string,
    cadetEmail: string,
    flightName: Value,
    eventName: string,
    eventDate: string,
    eventType: string,
    reason: string,
    decidable: bool)

  /** The event lines of a card. */
  function EventName(event: Option<Entry>): (r: string)
    ensures event.None? ==> r == "Unknown event"
    ensures event.Some? && "event_name" !in event.value.doc ==> r == "None"
    ensures event.Some? && "event_name" in event.value.doc ==> r == Show(event.value.doc["event_name"])
  {
    match event
    case None => "Unknown event"
    case Some(e) => if "event_name" in e.doc then Show(e.doc["event_name"]) else "None"
  }

  /** The event's start day as "%Y-%m-%d", or "Unknown date" when there is no
      event or no start date. */
  function EventDate(event: Option<Entry>): (r: string)
    ensures event.Some? && TimeOf(event.value.doc, "start_date").Some? ==>
              r == TimeOf(event.value.doc, "start_date").value.day
    ensures event.None? || TimeOf(event.value.doc, "start_date").None? ==> r == "Unknown date"
  {
    match event
    case None => "Unknown date"
    case Some(e) => match TimeOf(e.doc, "start_date") case Some(m) => m.day case None => "Unknown date"
  }

  function EventType(event: Option<Entry>): string {
    match event
    case None => "unknown"
    case Some(e) => if "event_type" in e.doc && Truthy(e.doc["event_type"]) then Show(e.doc["event_type"]) else "unknown"
  }

  /** The card of one waiver, or None when the loop skips it. */
  function CardOf(s: DbState, w: Entry, flightChoice: string, query: string): (r: Option<Card>)
    ensures r.Some? ==> Follow(s, AttendanceRecords, w.doc, "attendance_record_id").Some?
    ensures r.Some? ==> r.value.waiverId == w.id && r.value.status == ShownStatus(w.doc)
    ensures r.Some? ==> (r.value.decidable <==> ShownStatus(w.doc) == "pending")
    ensures r.Some? && flightChoice != "All flights" ==> r.value.flightName == Str(flightChoice)
    ensures r.Some? ==> SearchKeeps(r.value.cadetName, r.value.cadetEmail, query)
  {
    match Follow(s, AttendanceRecords, w.doc, "attendance_record_id")
    case None => None
    case Some(record) =>
      var event := Follow(s, Events, record.doc, "event_id");
      var cadet := Follow(s, Cadets, record.doc, "cadet_id");
      var user := if cadet.Some? then Follow(s, Users, cadet.value.doc, "user_id") else None;
      var flight := FlightName(s, cadet);
      if flightChoice != "All flights" && flight != Str(flightChoice) then None
      else if !SearchKeeps(CadetName(user), CadetEmail(user), query) then None
      else Some(Card(w.id, ShownStatus(w.doc), CadetName(user), CadetEmail(user), flight,
                     EventName(event), EventDate(event), EventType(event), FieldText(w.doc, "reason"),
                     ShownStatus(w.doc) == "pending"))
  }

  /** The cards of the waivers, in order. */
  function Cards(s: DbState, ws: Table, flightChoice: string, query: string): (r: seq<Card>)
    ensures |r| <= |ws|
  {
    if ws == [] then []
    else
      var n := |ws| - 1;
      var c := CardOf(s, ws[n], flightChoice, query);
      Cards(s, ws[..n], flightChoice, query) + (if c.Some? then [c.value] else [])
  }

  lemma CardsSnoc(s: DbState, ws: Table, i: nat, flightChoice: string, query: string)
    requires i < |ws|
    ensures Cards(s, ws[..i + 1], flightChoice, query) ==
            Cards(s, ws[..i], flightChoice, query) +
            (if CardOf(s, ws[i], flightChoice, query).Some? then [CardOf(s, ws[i], flightChoice, query).value] else [])
  {
    assert ws[..i + 1][..i] == ws[..i];
  }

  /** The loop over the sorted waivers: skip, or show a card. */
  method ShowWaivers(s: DbState, ws: Table, flightChoice: string, query: string)
    returns (cards: seq<Card>, shownAny: bool)
    ensures cards == Cards(s, ws, flightChoice, query)
    ensures shownAny <==> cards != []
  {
    cards := [];
    shownAny := false;
    for i := 0 to |ws|
      invariant cards == Cards(s, ws[..i], flightChoice, query)
      invariant shownAny <==> cards != []
    {
      CardsSnoc(s, ws, i, flightChoice, query);
      var w := ws[i];
      var status := ShownStatus(w.doc);
      var record := Follow(s, AttendanceRecords, w.doc, "attendance_record_id");
      if record.None? {
        assert CardOf(s, w, flightChoice, query).None?;
        continue;
      }
      var event := Follow(s, Events, record.value.doc, "event_id");
      var cadet := Follow(s, Cadets, record.value.doc, "cadet_id");
      var user: Option<Entry> := None;
      if cadet.Some? {
        user := Follow(s, Users, cadet.value.doc, "user_id");
      }
      var name, email := CadetName(user), CadetEmail(user);
      var flight := FlightName(s, cadet);
      if flightChoice != "All flights" && flight != Str(flightChoice) {
        assert CardOf(s, w, flightChoice, query).None?;
        continue;
      }
      if query != "" {
        var hay := Haystack(name, email);
        if !Contains(hay, query) {
          assert CardOf(s, w, flightChoice, query).None?;
          continue;
        }
      }
      shownAny := true;
      cards := cards + [Card(w.id, status, name, email, flight, EventName(event), EventDate(event),
                             EventType(event), FieldText(w.doc, "reason"), status == "pending")];
    }
    assert ws[..|ws|] == ws;
  }

  /** A waiver is left out with no filter only when its attendance record
      does not resolve; a missing event, cadet or user gives placeholders. */
  lemma SkippedOnlyWithoutRecord(s: DbState, w: Entry)
    ensures CardOf(s, w, "All flights", "").None? <==> Follow(s, AttendanceRecords, w.doc, "attendance_record_id").None?
    ensures var c := CardOf(s, w, "All flights", "");
            c.Some? ==> var record := Follow(s, AttendanceRecords, w.doc, "attendance_record_id").value;
              && (Follow(s, Events, record.doc, "event_id").None? ==> c.value.eventName == "Unknown event")
              && (Follow(s, Cadets, record.doc, "cadet_id").None? ==>
                    c.value.cadetName == "Unknown cadet" && c.value.cadetEmail == "" &&
                    c.value.flightName == Str("Unassigned"))
  {
  }

  /** With a flight chosen, every card shown is of that flight. */
  lemma FlightFilterKeepsFlight(s: DbState, ws: Table, flight: string, query: string)
    requires flight != "All flights"
    ensures forall c :: c in Cards(s, ws, flight, query) ==> c.flightName == Str(flight)
  {
    CardsFrom(s, ws, flight, query);
  }

  /** Every card comes from a waiver of the list whose card it is. */
  lemma {:induction false} CardsFrom(s: DbState, ws: Table, flight: string, query: string)
    ensures forall c :: c in Cards(s, ws, flight, query) ==>
              exists i :: 0 <= i < |ws| && CardOf(s, ws[i], flight, query) == Some(c)
  {
    if ws != [] {
      var n := |ws| - 1;
      CardsFrom(s, ws[..n], flight, query);
      forall c | c in Cards(s, ws, flight, query)
        ensures exists i :: 0 <= i < |ws| && CardOf(s, ws[i], flight, query) == Some(c)
      {
        if c in Cards(s, ws[..n], flight, query) {
          var i :| 0 <= i < n && CardOf(s, ws[..n][i], flight, query) == Some(c);
          assert ws[..n][i] == ws[i];
        } else {
          assert CardOf(s, ws[n], flight, query) == Some(c);
        }
      }
    }
  }

  /** The search keeps a card iff the query occurs somewhere in the
      lower-cased "name email"; the empty query keeps every card. */
  lemma SearchIsSubstring(name: string, email: string, query: string)
    ensures SearchKeeps(name, email, query) <==>
              (query == "" || exists i: nat :: InfixAt(Haystack(name, email), query, i))
  {
    ContainsIsInfix(Haystack(name, email), query);
  }

  /** The search text as the page makes it: stripped and lower-cased. */
  function Query(input: string): string {
    Lower(Strip(input))
  }

  /** A search written in capitals finds the same cadets. */
  lemma QueryIgnoresCase(a: string, b: string)
    requires Lower(a) == Lower(b)
    ensures Query(a) == Query(b)
  {
    StripLower(a);
    StripLower(b);
  }

  /** The decision form appears exactly on pending waivers, a missing status
      counting as pending. */
  lemma DecisionOnlyWhenPending(s: DbState, w: Entry, flight: string, query: string)
    requires CardOf(s, w, flight, query).Some?
    ensures CardOf(s, w, flight, query).value.decidable <==>
              StatusText(w.doc) == "" || Lower(StatusText(w.doc)) == "pending"
  {
    assert Lower("pending") == "pending";
  }

  // ---------------------------------------------------------------------
  // The decision

  datatype Decision = Approve | Deny

  /** What submitting a decision ends in. */
  datatype Outcome = NeedComments | UpdateFailed | ApprovalFailed | Saved(approvalId: Id)

  function NewStatus(d: Decision): string {
    if d == Approve then "approved" else "denied"
  }

  /** The comments recorded: stripped, or "Approved." when blank. */
  function Remark(comments: string): (r: string)
    ensures r != ""
    ensures Strip(comments) != "" ==> r == Strip(comments)
  {
    if Strip(comments) == "" then "Approved." else Strip(comments)
  }

  /** The two writes of a decision: the waiver's status first, then, only if
      that write went through, the approval record. */
  function Decide(s: DbState, waiverId: Id, approverId: Id, d: Decision, comments: string, now: Moment)
    : (r: (DbState, Outcome))
    ensures r.1 == NeedComments <==> d == Deny && Strip(comments) == ""
    ensures !s.connected && r.1 != NeedComments ==> r.1 == UpdateFailed
    ensures r.1 == NeedComments || r.1 == UpdateFailed ==> r.0 == s
    ensures r.1.Saved? ==> r.1.approvalId == s.nextId
  {
    if d == Deny && Strip(comments) == "" then (s, NeedComments)
    else
      var (s1, u) := Update(s, Waivers, waiverId, map["status" := Str(NewStatus(d))]);
      if !u.Acknowledged? then (s1, UpdateFailed)
      else
        var (s2, a) := Store.Insert(s1, WaiverApprovals, ApprovalDoc(waiverId, approverId, NewStatus(d), Remark(comments), now));
        (s2, if a.Inserted? then Saved(a.id) else ApprovalFailed)
  }

  /** A denial without comments writes nothing. */
  lemma DenyNeedsComments(s: DbState, waiverId: Id, approverId: Id, comments: string, now: Moment)
    requires Strip(comments) == ""
    ensures Decide(s, waiverId, approverId, Deny, comments, now) == (s, NeedComments)
  {
  }

  /** Any other submission on a reachable store records one approval whose
      decision is the new status and whose comments are the stripped
      comments or "Approved." -- even when the waiver no longer exists, since
      an update that matches nothing still goes through. */
  lemma DecideRecordsApproval(s: DbState, waiverId: Id, approverId: Id, d: Decision, comments: string, now: Moment)
    requires Valid(s) && s.connected && !(d == Deny && Strip(comments) == "")
    ensures var (s2, o) := Decide(s, waiverId, approverId, d, comments, now);
            && o.Saved?
            && Tab(s2, WaiverApprovals) ==
                 Tab(s, WaiverApprovals) + [Entry(o.approvalId, ApprovalDoc(waiverId, approverId, NewStatus(d), Remark(comments), now))]
  {
    var upd := map["status" := Str(NewStatus(d))];
    if FindId(Tab(s, Waivers), waiverId).Some? {
      UpdateOffIndexSucceeds(s, Waivers, waiverId, upd);
    }
    var (s1, u) := Update(s, Waivers, waiverId, upd);
    assert u.Acknowledged?;
    UpdateKeepsOthers(s, Waivers, waiverId, upd);
    var doc := ApprovalDoc(waiverId, approverId, NewStatus(d), Remark(comments), now);
    assert !Clashes(Tab(s1, WaiverApprovals), doc, UniqueFields(WaiverApprovals));
    var (s2, a) := Store.Insert(s1, WaiverApprovals, doc);
    assert a == Inserted(s1.nextId);
    assert Tab(s2, WaiverApprovals) == Tab(s1, WaiverApprovals) + [Entry(s1.nextId, doc)];
  }

  /** The status a decision writes reads back as itself and is not "pending". */
  lemma DecidedStatus(doc: Doc, d: Decision)
    ensures StatusText(doc + map["status" := Str(NewStatus(d))]) == NewStatus(d)
    ensures ShownStatus(doc + map["status" := Str(NewStatus(d))]) != "pending"
  {
    var doc2 := doc + map["status" := Str(NewStatus(d))];
    assert TextOf(doc2, "status") == Some(NewStatus(d));
    LowerKeeps(NewStatus(d));
  }

  /** A decision that gets past its status update leaves the waivers as that
      update left them: the approval goes to another collection. */
  lemma DecideWaiversTable(s: DbState, waiverId: Id, approverId: Id, d: Decision, comments: string, now: Moment)
    requires !(d == Deny && Strip(comments) == "")
    requires Update(s, Waivers, waiverId, map["status" := Str(NewStatus(d))]).1.Acknowledged?
    ensures var s1 := Update(s, Waivers, waiverId, map["status" := Str(NewStatus(d))]).0;
            var s2 := Decide(s, waiverId, approverId, d, comments, now).0;
            s2.connected == s1.connected && Tab(s2, Waivers) == Tab(s1, Waivers)
  {
    var s1 := Update(s, Waivers, waiverId, map["status" := Str(NewStatus(d))]).0;
    var doc := ApprovalDoc(waiverId, approverId, NewStatus(d), Remark(comments), now);
    DecideInserts(s, waiverId, approverId, d, comments, now);
    InsertKeepsOtherTab(s1, WaiverApprovals, doc, Waivers);
  }

  /** Past its status update, a decision is the approval insert. */
  lemma DecideInserts(s: DbState, waiverId: Id, approverId: Id, d: Decision, comments: string, now: Moment)
    requires !(d == Deny && Strip(comments) == "")
    requires Update(s, Waivers, waiverId, map["status" := Str(NewStatus(d))]).1.Acknowledged?
    ensures var s1 := Update(s, Waivers, waiverId, map["status" := Str(NewStatus(d))]).0;
            Decide(s, waiverId, approverId, d, comments, now).0 ==
              Store.Insert(s1, WaiverApprovals, ApprovalDoc(waiverId, approverId, NewStatus(d), Remark(comments), now)).0
  {
  }

  /** After a decision on an existing waiver, the waiver has the new status
      and is no longer offered a decision. */
  lemma DecideSetsStatus(s: DbState, waiverId: Id, approverId: Id, d: Decision, comments: string, now: Moment)
    requires Valid(s) && s.connected && !(d == Deny && Strip(comments) == "")
    requires ById(s, Waivers, waiverId).Some?
    ensures var s2 := Decide(s, waiverId, approverId, d, comments, now).0;
            && ById(s2, Waivers, waiverId).Some?
            && StatusText(ById(s2, Waivers, waiverId).value.doc) == NewStatus(d)
            && ShownStatus(ById(s2, Waivers, waiverId).value.doc) != "pending"
  {
    var upd := map["status" := Str(NewStatus(d))];
    var e := FindId(Tab(s, Waivers), waiverId).value;
    UpdateThenFind(s, Waivers, waiverId, upd);
    UpdateOffIndexSucceeds(s, Waivers, waiverId, upd);
    DecideWaiversTable(s, waiverId, approverId, d, comments, now);
    var s1 := Update(s, Waivers, waiverId, upd).0;
    var s2 := Decide(s, waiverId, approverId, d, comments, now).0;
    assert ById(s2, Waivers, waiverId) == ById(s1, Waivers, waiverId);
    DecidedStatus(e.doc, d);
  }

  /** The in-place store version of the decision. */
  method Submit(db: Database, waiverId: Id, approverId: Id, d: Decision, comments: string, now: Moment)
    returns (o: Outcome)
    requires db.Valid()
    modifies db
    ensures db.Valid()
    ensures (db.State(), o) == Decide(old(db.State()), waiverId, approverId, d, comments, now)
  {
    if d == Deny && Strip(comments) == "" {
      return NeedComments;
    }
    var newStatus := NewStatus(d);
    var u := db.UpdateWaiver(waiverId, map["status" := Str(newStatus)]);
    if !u.Acknowledged? {
      return UpdateFailed;
    }
    var a := db.CreateWaiverApproval(waiverId, approverId, newStatus, Remark(comments), now);
    if a.Inserted? {
      o := Saved(a.id);
    } else {
      o := ApprovalFailed;
    }
  }

  // ---------------------------------------------------------------------
  // The page

  /** The flight choices: "All flights", then each flight's name. */
  function FlightChoices(s: DbState): (r: seq<Value>)
    ensures |r| == |GetAllFlights(s)| + 1 && r[0] == Str("All flights")
  {
    var fs := GetAllFlights(s);
    [Str("All flights")] + seq(|fs|, i requires 0 <= i < |fs| =>
      if "name" in fs[i].doc then fs[i].doc["name"] else Str("Unnamed flight"))
  }

  datatype View =
    | RedirectToLogin
    | Forbidden
    | NoApprover(why: Approver)
    | NoWaivers
    | Listing(approverId: Id, cards: seq<Card>, shownAny: bool)

  /** The page up to the decision forms. The approver's email is the one the
      users file gives. */
  method Render(session: Auth.Session, s: DbState, statusChoice: string, flightChoice: string, search: string)
    returns (v: View)
    ensures v.RedirectToLogin? <==> Auth.RequireRole(session, Auth.Reviewers).RedirectToLogin?
    ensures v.Forbidden? <==> Auth.RequireRole(session, Auth.Reviewers).Forbidden?
    ensures v.NoApprover? <==> Auth.RequireRole(session, Auth.Reviewers).Admitted? &&
                               !ResolveApprover(s, Auth.FileEmail(session)).ApproverId?
    ensures v.NoWaivers? <==> Auth.RequireRole(session, Auth.Reviewers).Admitted? &&
                              ResolveApprover(s, Auth.FileEmail(session)).ApproverId? &&
                              FilterStatus(GetAllWaivers(s), statusChoice) == []
    ensures v.Listing? ==>
              && v.approverId == ResolveApprover(s, Auth.FileEmail(session)).id
              && v.cards == Cards(s, NewestFirst(FilterStatus(GetAllWaivers(s), statusChoice)), flightChoice, Query(search))
              && (v.shownAny <==> v.cards != [])
  {
    var gate := Auth.RequireRole(session, Auth.Reviewers);
    if gate.RedirectToLogin? {
      return RedirectToLogin;
    }
    if gate.Forbidden? {
      return Forbidden;
    }
    var approver := ResolveApprover(s, Auth.FileEmail(session));
    if !approver.ApproverId? {
      return NoApprover(approver);
    }
    var query := Query(search);
    var waivers := FilterStatus(GetAllWaivers(s), statusChoice);
    waivers := NewestFirst(waivers);
    if waivers == [] {
      return NoWaivers;
    }
    var cards, shownAny := ShowWaivers(s, waivers, flightChoice, query);
    v := Listing(approver.id, cards, shownAny);
  }
}
