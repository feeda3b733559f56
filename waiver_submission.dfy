/** pages/5_Waivers.py: a cadet picks one of their absent records that has
    no waiver yet and gives a reason; below the form, the cadet's waivers
    with their event and status. */
module WaiverSubmission {
  import opened Common
  import opened Store
  import opened Crud
  import Auth
  import Dashboard
  import WaiverReview

  // ---------------------------------------------------------------------
  // Who is asking

  /** How the page ends up for the signed-in user before the form. */
  datatype Identity = RedirectToLogin | Forbidden | NoAccount | NotCadet | Cadet(userId: Id, cadetId: Id)

  /** `current_user["email"]`: None stands for the KeyError it raises, the
      current-user record having no email key. */
  function EmailAsWritten(user: Auth.CurrentUser): Option<string> {
    match Auth.Field(user, "email")
    case Some(Str(e)) => Some(e)
    case _ => None
  }

  /** As written, every signed-in cadet reaches a failing email lookup. */
  lemma EmailLookupRaises(session: Auth.Session)
    requires session.authenticated
    ensures EmailAsWritten(Auth.GetCurrentUser(session).value).None?
  {
  }

  /** The cadet behind the session, with the email taken from the users
      file: an empty email and an unknown one give the same message. */
  function Identify(session: Auth.Session, s: DbState): (r: Identity)
    ensures r.RedirectToLogin? <==> !session.authenticated
    ensures r.Forbidden? <==> session.authenticated && Auth.GetCurrentUser(session).value.role != "cadet"
    ensures r.Cadet? ==>
              && Auth.FileEmail(session) != ""
              && GetUserByEmail(s, Auth.FileEmail(session)).Some?
              && GetUserByEmail(s, Auth.FileEmail(session)).value.id == r.userId
              && GetCadetByUserId(s, r.userId).Some?
              && GetCadetByUserId(s, r.userId).value.id == r.cadetId
    ensures var admitted := session.authenticated && Auth.GetCurrentUser(session).value.role == "cadet";
            var email := Auth.FileEmail(session);
            var user := GetUserByEmail(s, email);
            && (r.NoAccount? <==> admitted && (email == "" || user.None?))
            && (r.NotCadet? <==> admitted && email != "" && user.Some? && GetCadetByUserId(s, user.value.id).None?)
            && (r.Cadet? <==> admitted && email != "" && user.Some? && GetCadetByUserId(s, user.value.id).Some?)
  {
    match Auth.RequireRole(session, Auth.CadetOnly)
    case RedirectToLogin => RedirectToLogin
    case Forbidden => Forbidden
    case Admitted(_) =>
      var email := Auth.FileEmail(session);
      if email == "" then NoAccount
      else match GetUserByEmail(s, email)
        case None => NoAccount
        case Some(user) =>
          match GetCadetByUserId(s, user.id)
          case None => NotCadet
          case Some(cadet) => Cadet(user.id, cadet.id)
  }

  // ---------------------------------------------------------------------
  // The cadet's waivers

  /** The event of an attendance record: looked up only when the record
      holds an event_id. */
  function RecordEvent(s: DbState, record: Entry): Option<Entry> {
    Follow(s, Events, record.doc, "event_id")
  }

  /** `_event_name`: the event's event_name (None when it has none), or
      "Unknown event" when there is no event. */
  function EventNameTag(event: Option<Entry>): Value {
    match event
    case None => Str("Unknown event")
    case Some(e) => if "event_name" in e.doc then e.doc["event_name"] else Null
  }

  /** A waiver as the list shows it: its own fields plus `_event_name` and
      `_event_date`; the stored waiver is not touched. */
  function Tagged(s: DbState, w: Entry, record: Entry): (r: Entry)
    ensures r.id == w.id && r.doc.Keys == w.doc.Keys + {"_event_name", "_event_date"}
    ensures forall k :: k in w.doc && k != "_event_name" && k != "_event_date" ==> r.doc[k] == w.doc[k]
    ensures RecordEvent(s, record).None? ==>
              r.doc["_event_name"] == Str("Unknown event") && r.doc["_event_date"] == Str("Unknown date")
    ensures RecordEvent(s, record).Some? ==>
              var e := RecordEvent(s, record).value;
              && r.doc["_event_name"] == (if "event_name" in e.doc then e.doc["event_name"] else Null)
              && r.doc["_event_date"] == Str(WaiverReview.EventDate(Some(e)))
  {
    var event := RecordEvent(s, record);
    Entry(w.id, w.doc["_event_name" := EventNameTag(event)]["_event_date" := Str(WaiverReview.EventDate(event))])
  }

  /** The tagged waiver of each record that has one, in record order. */
  function WaiversOf(s: DbState, records: Table): (r: seq<Entry>)
    ensures |r| <= |records|
  {
    if records == [] then []
    else
      var n := |records| - 1;
      WaiversOf(s, records[..n]) + Contribution(s, records[n])
  }

  /** What one record adds to the list: its waiver, tagged, or nothing. */
  function Contribution(s: DbState, record: Entry): (r: seq<Entry>)
    ensures |r| <= 1
  {
    match GetWaiverByAttendanceRecord(s, record.id)
    case Some(w) => [Tagged(s, w, record)]
    case None => []
  }

  /** One record contributes its waiver, tagged, or nothing. */
  lemma WaiversOfOne(s: DbState, record: Entry)
    ensures WaiversOf(s, [record]) ==
              match GetWaiverByAttendanceRecord(s, record.id)
              case Some(w) => [Tagged(s, w, record)]
              case None => []
  {
    assert [record][..0] == [];
  }

  /** A non-empty list of records contributes what its first part does,
      then what its last record does. */
  lemma WaiversOfLast(s: DbState, t: Table)
    requires t != []
    ensures WaiversOf(s, t) == WaiversOf(s, t[..|t| - 1]) + Contribution(s, t[|t| - 1])
  {
  }

  /** The list follows the records: the waivers of a longer list of records
      come after those of its first part. */
  lemma {:induction false} WaiversOfAppend(s: DbState, a: Table, b: Table)
    ensures WaiversOf(s, a + b) == WaiversOf(s, a) + WaiversOf(s, b)
  {
    if b == [] {
      assert a + b == a;
    } else {
      var n := |b| - 1;
      assert WaiversOf(s, a + b) == WaiversOf(s, a + b[..n]) + Contribution(s, b[n]) by {
        WaiversOfLast(s, a + b);
        assert (a + b)[..|a + b| - 1] == a + b[..n];
        assert (a + b)[|a + b| - 1] == b[n];
      }
      assert WaiversOf(s, b) == WaiversOf(s, b[..n]) + Contribution(s, b[n]) by {
        WaiversOfLast(s, b);
      }
      WaiversOfAppend(s, a, b[..n]);
    }
  }

  /** get_all_waivers_for_cadet: the loop over the cadet's records. */
  method GetAllWaiversForCadet(s: DbState, cadetId: Id) returns (waivers: seq<Entry>)
    ensures waivers == WaiversOf(s, GetAttendanceByCadet(s, cadetId))
  {
    var records := GetAttendanceByCadet(s, cadetId);
    waivers := [];
    for i := 0 to |records|
      invariant waivers == WaiversOf(s, records[..i])
    {
      var waiver := GetWaiverByAttendanceRecord(s, records[i].id);
      WaiversOfStep(s, records, i);
      if waiver.Some? {
        var event := RecordEvent(s, records[i]);
        var doc := waiver.value.doc["_event_name" := EventNameTag(event)];
        doc := doc["_event_date" := Str(WaiverReview.EventDate(event))];
        assert Entry(waiver.value.id, doc) == Tagged(s, waiver.value, records[i]);
        waivers := waivers + [Entry(waiver.value.id, doc)];
      }
    }
    assert records[..|records|] == records;
  }

  /** One more record adds its tagged waiver, if it has one. */
  lemma WaiversOfStep(s: DbState, records: Table, i: int)
    requires 0 <= i < |records|
    ensures WaiversOf(s, records[..i + 1]) ==
              WaiversOf(s, records[..i]) +
                match GetWaiverByAttendanceRecord(s, records[i].id)
                case Some(w) => [Tagged(s, w, records[i])]
                case None => []
  {
    assert records[..i + 1][..i] == records[..i];
  }

  /** The status column: a known status, in any case, gets its badge; any
      other status is shown as stored. */
  function Badge(status: string): (r: string)
    ensures Lower(status) == "pending" ==> r == "\U{1F7E1} Pending"
    ensures Lower(status) == "approved" ==> r == "\U{1F7E2} Approved"
    ensures Lower(status) == "denied" ==> r == "\U{1F534} Denied"
    ensures Lower(status) !in ["pending", "approved", "denied"] ==> r == status
  {
    var key := Lower(status);
    if key == "pending" then "\U{1F7E1} Pending"
    else if key == "approved" then "\U{1F7E2} Approved"
    else if key == "denied" then "\U{1F534} Denied"
    else status
  }

  /** Every status the two waiver pages write is shown with a badge. */
  lemma WrittenStatusesHaveBadges(d: WaiverReview.Decision)
    ensures Badge("pending") != "pending"
    ensures Badge(WaiverReview.NewStatus(d)) != WaiverReview.NewStatus(d)
  {
    LowerKeeps("pending");
    LowerKeeps(WaiverReview.NewStatus(d));
  }

  // ---------------------------------------------------------------------
  // The records a waiver can be asked for

  /** Some waiver points to this attendance record. */
  predicate Waived(s: DbState, recordId: Id) {
    GetWaiverByAttendanceRecord(s, recordId).Some?
  }

  /** The records among these that no waiver points to, in order. */
  function WithoutWaiver(s: DbState, records: Table): (r: Table)
    ensures |r| <= |records|
  {
    if records == [] then []
    else
      var n := |records| - 1;
      WithoutWaiver(s, records[..n]) + (if !Waived(s, records[n].id) then [records[n]] else [])
  }

  /** The filter keeps exactly the records no waiver points to. */
  lemma {:induction false} WithoutWaiverMembers(s: DbState, records: Table)
    ensures forall e :: e in WithoutWaiver(s, records) <==> e in records && !Waived(s, e.id)
  {
    if records != [] {
      var n := |records| - 1;
      WithoutWaiverMembers(s, records[..n]);
      assert records == records[..n] + [records[n]];
    }
  }

  /** The absent records of a cadet: `r.get("status") == "absent"`. */
  function AbsentOf(s: DbState, cadetId: Id): Table {
    FindAll(GetAttendanceByCadet(s, cadetId), "status", Str("absent"))
  }

  /** get_absent_records: the comprehension, then the loop that keeps the
      records without a waiver. */
  method GetAbsentRecords(s: DbState, cadetId: Id) returns (noWaiver: Table)
    ensures noWaiver == WithoutWaiver(s, AbsentOf(s, cadetId))
  {
    var absent := AbsentOf(s, cadetId);
    noWaiver := [];
    for i := 0 to |absent|
      invariant noWaiver == WithoutWaiver(s, absent[..i])
    {
      assert absent[..i + 1][..i] == absent[..i];
      var existing := GetWaiverByAttendanceRecord(s, absent[i].id);
      if !existing.Some? {
        noWaiver := noWaiver + [absent[i]];
      }
    }
    assert absent[..|absent|] == absent;
  }

  /** The records offered are exactly the cadet's stored records whose
      status is "absent", spelled so, and that no waiver points to. */
  lemma OfferedRecords(s: DbState, cadetId: Id)
    ensures forall e :: e in WithoutWaiver(s, AbsentOf(s, cadetId)) <==>
              && s.connected && e in Tab(s, AttendanceRecords)
              && Matches(e, "cadet_id", Ref(cadetId)) && Matches(e, "status", Str("absent"))
              && !Waived(s, e.id)
  {
    WithoutWaiverMembers(s, AbsentOf(s, cadetId));
  }

  /** The filter keeps record order. */
  lemma {:induction false} WithoutWaiverAppend(s: DbState, a: Table, b: Table)
    ensures WithoutWaiver(s, a + b) == WithoutWaiver(s, a) + WithoutWaiver(s, b)
  {
    if b == [] {
      assert a + b == a;
    } else {
      var n := |b| - 1;
      var ab := a + b;
      WithoutWaiverAppend(s, a, b[..n]);
      assert ab[..|ab| - 1] == a + b[..n];
      assert ab[|ab| - 1] == b[n];
      var last := if !Waived(s, b[n].id) then [b[n]] else [];
      assert WithoutWaiver(s, ab) == WithoutWaiver(s, a + b[..n]) + last;
      assert WithoutWaiver(s, b) == WithoutWaiver(s, b[..n]) + last;
    }
  }

  /** Unlike the dashboard, which counts "Absent" as absent, this page does
      not offer a record whose status is "Absent". */
  lemma AbsentIsCaseSensitive()
    ensures var e := Entry(0, map["status" := Str("Absent")]);
            FindAll([e], "status", Str("absent")) == [] && Dashboard.NormalizeStatus(Some("Absent")) == "A"
  {
    AbsentNotOffered();
    AbsentOnDashboard();
  }

  lemma AbsentNotOffered()
    ensures FindAll([Entry(0, map["status" := Str("Absent")])], "status", Str("absent")) == []
  {
    var e := Entry(0, map["status" := Str("Absent")]);
    assert !Matches(e, "status", Str("absent"));
  }

  lemma AbsentOnDashboard()
    ensures Dashboard.NormalizeStatus(Some("Absent")) == "A"
  {
    AbsentStrips();
    AbsentLowers();
  }

  lemma AbsentStrips()
    ensures Strip("Absent") == "Absent"
  {
    StripKeeps("Absent");
  }

  lemma AbsentLowers()
    ensures |Lower("Absent")| == 6 && Lower("Absent")[0] == 'a'
  {
  }

  // ---------------------------------------------------------------------
  // The form

  /** dropdown_row: "date - name" when the record's event resolves (name
      "Unknown event" when the event has none), else the record's id. */
  function DropdownRow(s: DbState, record: Entry): (r: string)
    ensures RecordEvent(s, record).None? ==> r == IdText(record.id)
    ensures RecordEvent(s, record).Some? ==>
              var e := RecordEvent(s, record).value;
              r == WaiverReview.EventDate(Some(e)) + " - " +
                   (if "event_name" in e.doc then Show(e.doc["event_name"]) else "Unknown event")
  {
    match RecordEvent(s, record)
    case None => IdText(record.id)
    case Some(e) =>
      var name := if "event_name" in e.doc then Show(e.doc["event_name"]) else "Unknown event";
      WaiverReview.EventDate(Some(e)) + " - " + name
  }

  /** The two kinds of label never meet: only an event label holds a space. */
  lemma DropdownRowKinds(s: DbState, record: Entry)
    ensures ' ' in DropdownRow(s, record) <==> RecordEvent(s, record).Some?
  {
    if RecordEvent(s, record).Some? {
      var r := DropdownRow(s, record);
      var e := RecordEvent(s, record).value;
      var name := if "event_name" in e.doc then Show(e.doc["event_name"]) else "Unknown event";
      var date := WaiverReview.EventDate(Some(e));
      assert r == date + " - " + name;
      assert r[|date|] == ' ';
    }
  }

  /** The label of each record, in order. */
  function Labels(s: DbState, records: Table): (r: seq<string>)
    ensures |r| == |records|
    ensures forall i :: 0 <= i < |records| ==> r[i] == DropdownRow(s, records[i])
  {
    seq(|records|, i requires 0 <= i < |records| => DropdownRow(s, records[i]))
  }

  /** The labels in first-seen order, each once: the keys of a dict built
      from them. */
  function Distinct(labels: seq<string>): (r: seq<string>)
    ensures forall x :: x in r <==> x in labels
    ensures forall i, j :: 0 <= i < j < |r| ==> r[i] != r[j]
  {
    if labels == [] then []
    else
      var n := |labels| - 1;
      assert labels == labels[..n] + [labels[n]];
      Distinct(labels[..n]) + (if labels[n] in labels[..n] then [] else [labels[n]])
  }

  /** The options of the select box: `list(record_labels.keys())`. */
  function Options(s: DbState, records: Table): seq<string> {
    Distinct(Labels(s, records))
  }

  /** In a longer list, the last x is in the second part when it holds one. */
  lemma {:induction false} LastIndexAppend(xs: seq<string>, ys: seq<string>, x: string)
    ensures LastIndexOf(xs + ys, x) ==
              if LastIndexOf(ys, x).Some? then Some(|xs| + LastIndexOf(ys, x).value) else LastIndexOf(xs, x)
  {
    if ys == [] {
      assert xs + ys == xs;
    } else {
      var m := |ys| - 1;
      if ys[m] != x {
        assert LastIndexOf(xs + ys, x) == LastIndexOf(xs + ys[..m], x) by {
          assert (xs + ys)[|xs + ys| - 1] == ys[m];
          assert (xs + ys)[..|xs + ys| - 1] == xs + ys[..m];
        }
        LastIndexAppend(xs, ys[..m], x);
      } else {
        assert (xs + ys)[|xs + ys| - 1] == x;
      }
    }
  }

  /** `record_labels[text]`: the last record with this label. */
  function LabelTarget(s: DbState, records: Table, text: string): (r: Option<Entry>)
    ensures r.Some? <==> text in Labels(s, records)
    ensures r.Some? ==> r.value in records && DropdownRow(s, r.value) == text
  {
    match LastIndexOf(Labels(s, records), text)
    case None => None
    case Some(i) => Some(records[i])
  }

  /** Labels of a longer list of records follow the records. */
  lemma LabelsAppend(s: DbState, a: Table, b: Table)
    ensures Labels(s, a + b) == Labels(s, a) + Labels(s, b)
  {
    assert forall i :: 0 <= i < |a| ==> (a + b)[i] == a[i];
    assert forall i :: |a| <= i < |a + b| ==> (a + b)[i] == b[i - |a|];
  }

  /** Two records with the same label make one option, and it stands for
      the later record. */
  lemma LaterRecordWins(s: DbState, a: Table, b: Table, text: string)
    ensures LabelTarget(s, a + b, text) ==
              if LabelTarget(s, b, text).Some? then LabelTarget(s, b, text) else LabelTarget(s, a, text)
  {
    LabelsAppend(s, a, b);
    LastIndexAppend(Labels(s, a), Labels(s, b), text);
    if LastIndexOf(Labels(s, b), text).Some? {
      var k := LastIndexOf(Labels(s, b), text).value;
      assert (a + b)[|a| + k] == b[k];
    } else if LastIndexOf(Labels(s, a), text).Some? {
      var k := LastIndexOf(Labels(s, a), text).value;
      assert (a + b)[k] == a[k];
    }
  }

  /** The first index of a record whose id string is this one. */
  function FirstIdIndex(records: Table, idText: string): (r: Option<nat>)
    ensures r.Some? ==> r.value < |records| && IdText(records[r.value].id) == idText &&
                        forall j :: 0 <= j < r.value ==> IdText(records[j].id) != idText
    ensures r.None? ==> forall j :: 0 <= j < |records| ==> IdText(records[j].id) != idText
  {
    if records == [] then None
    else if IdText(records[0].id) == idText then Some(0)
    else match FirstIdIndex(records[1..], idText)
      case None => None
      case Some(k) => Some(k + 1)
  }

  /** The preselected option: the first record whose id string is the
      stored one, when one is stored and found, else the first option. */
  function DefaultIndexOf(records: Table, stored: Option<string>): nat {
    if stored.None? || stored.value == "" then 0
    else FirstIdIndex(records, stored.value).GetOr(0)
  }

  /** The loop that looks for the stored record, stopping at the first. */
  method DefaultIndex(records: Table, stored: Option<string>) returns (index: nat)
    ensures index == DefaultIndexOf(records, stored)
  {
    index := 0;
    if stored.Some? && stored.value != "" {
      var i := 0;
      while i < |records|
        invariant 0 <= i <= |records|
        invariant forall j :: 0 <= j < i ==> IdText(records[j].id) != stored.value
      {
        if IdText(records[i].id) == stored.value {
          index := i;
          break;
        }
        i := i + 1;
      }
    }
  }

  /** How one run of waiver_form ends. BadIndex: the select box's index is
      past its options, which the widget refuses. */
  datatype FormResult = NoAbsentRecords | BadIndex | Shown | NeedReason | Submitted(waiverId: Id) | SubmitFailed

  /** The record behind the option left selected (None: the preselected
      one), or None when there is no such option. */
  function Selected(s: DbState, absent: Table, stored: Option<string>, pick: Option<nat>): (r: Option<Entry>)
    ensures r.Some? ==> r.value in absent
  {
    var options := Options(s, absent);
    var index := pick.GetOr(DefaultIndexOf(absent, stored));
    if index >= |options| then None
    else
      assert options[index] in Labels(s, absent);
      LabelTarget(s, absent, options[index])
  }

  /** waiver_form given the stored record id, the option the cadet leaves
      selected, the reason and whether Submit was pressed. */
  function Form(s: DbState, stored: Option<string>, userId: Id, cadetId: Id, pick: Option<nat>,
                reason: string, submit: bool, now: Moment): (r: (DbState, FormResult))
    ensures r.1 == NoAbsentRecords <==> WithoutWaiver(s, AbsentOf(s, cadetId)) == []
    ensures r.1.Submitted? ==> submit && Strip(reason) != "" && r.1.waiverId == s.nextId
    ensures !r.1.Submitted? ==> r.0 == s
  {
    var absent := WithoutWaiver(s, AbsentOf(s, cadetId));
    if absent == [] then (s, NoAbsentRecords)
    else FormOver(s, absent, stored, userId, pick, reason, submit, now)
  }

  /** The form once there are records to offer: the select box, the
      reason and the Submit button. */
  function FormOver(s: DbState, absent: Table, stored: Option<string>, userId: Id, pick: Option<nat>,
                    reason: string, submit: bool, now: Moment): (r: (DbState, FormResult))
    ensures r.1 != NoAbsentRecords
    ensures r.1.Submitted? ==> submit && Strip(reason) != "" && r.1.waiverId == s.nextId
    ensures !r.1.Submitted? ==> r.0 == s
  {
    match Selected(s, absent, stored, pick)
    case None => (s, BadIndex)
    case Some(record) =>
      if !submit then (s, Shown)
      else if Strip(reason) == "" then (s, NeedReason)
      else
        var (s2, res) := Store.Insert(s, Waivers, WaiverDoc(record.id, reason, "pending", userId, now));
        (s2, if res.Inserted? then Submitted(res.id) else SubmitFailed)
  }

  /** No absent record without a waiver: no form, nothing written. */
  lemma NoFormWithoutAbsent(s: DbState, stored: Option<string>, userId: Id, cadetId: Id, pick: Option<nat>,
                            reason: string, submit: bool, now: Moment)
    ensures Form(s, stored, userId, cadetId, pick, reason, submit, now).1 == NoAbsentRecords <==>
              WithoutWaiver(s, AbsentOf(s, cadetId)) == []
    ensures WithoutWaiver(s, AbsentOf(s, cadetId)) == [] ==>
              Form(s, stored, userId, cadetId, pick, reason, submit, now).0 == s
  {
    if WithoutWaiver(s, AbsentOf(s, cadetId)) != [] {
      var r := FormOver(s, WithoutWaiver(s, AbsentOf(s, cadetId)), stored, userId, pick, reason, submit, now);
      assert Form(s, stored, userId, cadetId, pick, reason, submit, now) == r;
    }
  }

  /** A blank or whitespace-only reason creates no waiver. */
  lemma BlankReasonWritesNothing(s: DbState, stored: Option<string>, userId: Id, cadetId: Id, pick: Option<nat>,
                                 reason: string, submit: bool, now: Moment)
    requires Strip(reason) == ""
    ensures Form(s, stored, userId, cadetId, pick, reason, submit, now).0 == s
    ensures !Form(s, stored, userId, cadetId, pick, reason, submit, now).1.Submitted?
  {
    var absent := WithoutWaiver(s, AbsentOf(s, cadetId));
    if absent != [] {
      assert Form(s, stored, userId, cadetId, pick, reason, submit, now) ==
               FormOver(s, absent, stored, userId, pick, reason, submit, now);
    }
  }

  /** A submitted waiver is appended to the waivers: pending, for the
      selected record, by the submitter, with the reason as typed. The
      record is one of the cadet's absent records without a waiver. */
  lemma SubmittedWaiver(s: DbState, stored: Option<string>, userId: Id, cadetId: Id, pick: Option<nat>,
                        reason: string, submit: bool, now: Moment)
    requires Form(s, stored, userId, cadetId, pick, reason, submit, now).1.Submitted?
    ensures var (s2, r) := Form(s, stored, userId, cadetId, pick, reason, submit, now);
            var absent := WithoutWaiver(s, AbsentOf(s, cadetId));
            var record := Selected(s, absent, stored, pick);
            && submit && Strip(reason) != ""
            && record.Some? && record.value in absent
            && Tab(s2, Waivers) == Tab(s, Waivers) + [Entry(r.waiverId, WaiverDoc(record.value.id, reason, "pending", userId, now))]
  {
    var absent := WithoutWaiver(s, AbsentOf(s, cadetId));
    var r := Form(s, stored, userId, cadetId, pick, reason, submit, now);
    assert absent != [];
    assert r == FormOver(s, absent, stored, userId, pick, reason, submit, now);
    var record := Selected(s, absent, stored, pick).value;
    var doc := WaiverDoc(record.id, reason, "pending", userId, now);
    var (s2, res) := Store.Insert(s, Waivers, doc);
    assert r == (s2, Submitted(res.id));
  }

  /** On a reachable store, a submission with a reason always goes through:
      the record chosen has no waiver, so the unique index on
      attendance_record_id cannot refuse it. */
  lemma SubmitSucceeds(s: DbState, stored: Option<string>, userId: Id, cadetId: Id, pick: Option<nat>,
                       reason: string, now: Moment)
    requires s.connected && Strip(reason) != ""
    requires Selected(s, WithoutWaiver(s, AbsentOf(s, cadetId)), stored, pick).Some?
    ensures Form(s, stored, userId, cadetId, pick, reason, true, now).1.Submitted?
  {
    var absent := WithoutWaiver(s, AbsentOf(s, cadetId));
    var record := Selected(s, absent, stored, pick).value;
    WithoutWaiverMembers(s, AbsentOf(s, cadetId));
    var d := WaiverDoc(record.id, reason, "pending", userId, now);
    NoWaiverNoClash(s, record.id, d);
  }

  /** A waiver document for a record no waiver points to clashes with none. */
  lemma NoWaiverNoClash(s: DbState, recordId: Id, d: Doc)
    requires s.connected && !Waived(s, recordId)
    requires "attendance_record_id" in d && d["attendance_record_id"] == Ref(recordId)
    ensures !Clashes(Tab(s, Waivers), d, UniqueFields(Waivers))
  {
    var t := Tab(s, Waivers);
    forall i | 0 <= i < |t| ensures !Collide(t[i].doc, d, UniqueFields(Waivers)) {
      assert t[i] in t;
      assert !Matches(t[i], "attendance_record_id", Ref(recordId));
      assert IndexKey(d, ["attendance_record_id"])[0] == Ref(recordId);
    }
  }

  /** The select box and `record_labels[label]`: the record behind the
      option left selected. */
  method SelectRecord(s: DbState, absent: Table, stored: Option<string>, pick: Option<nat>)
    returns (record: Option<Entry>)
    ensures record == Selected(s, absent, stored, pick)
  {
    var options := Options(s, absent);
    var defaultIndex := DefaultIndex(absent, stored);
    var index := pick.GetOr(defaultIndex);
    if index >= |options| {
      return None;
    }
    assert options[index] in Labels(s, absent);
    record := LabelTarget(s, absent, options[index]);
  }

  /** The session value waiver_form reads and clears. */
  class FormSession {
    var waiverRecordId: Option<string>

    /** The page's first run: nothing stored. */
    constructor ()
      ensures waiverRecordId.None?
    {
      waiverRecordId := None;
    }

    /** waiver_form: the stored record id is read and cleared on every run,
        whatever follows. */
    method WaiverForm(db: Database, userId: Id, cadetId: Id, pick: Option<nat>, reason: string,
                      submit: bool, now: Moment) returns (r: FormResult)
      requires db.Valid()
      modifies this, db
      ensures db.Valid()
      ensures waiverRecordId.None?
      ensures (db.State(), r) == Form(old(db.State()), old(waiverRecordId), userId, cadetId, pick, reason, submit, now)
    {
      var recordId := waiverRecordId;
      waiverRecordId := None;
      var s := db.State();
      var absent := GetAbsentRecords(s, cadetId);
      if absent == [] {
        return NoAbsentRecords;
      }
      var record := SelectRecord(s, absent, recordId, pick);
      if record.None? {
        return BadIndex;
      }
      if !submit {
        return Shown;
      }
      if Strip(reason) == "" {
        return NeedReason;
      }
      var res := db.CreateWaiver(record.value.id, reason, "pending", userId, now);
      r := if res.Inserted? then Submitted(res.id) else SubmitFailed;
    }
  }
}
