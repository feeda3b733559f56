/** pages/4_Flight_Management.py: the map from a cadet's display text to
    the cadet, the members of a flight, and the create, assign and delete
    buttons. */
module FlightAdmin {
  import opened Common
  import opened Store
  import opened Crud

  // ---------------------------------------------------------------------
  // Members of a flight

  /** get_cadets_by_flight: exactly the cadets whose flight_id is the flight,
      in natural order; none when the store is unavailable. */
  function GetCadetsByFlight(s: DbState, flightId: Id): (r: Table)
    ensures forall e :: e in r <==> s.connected && e in Tab(s, Cadets) && Matches(e, "flight_id", Ref(flightId))
  {
    Many(s, Cadets, "flight_id", Ref(flightId))
  }

  // ---------------------------------------------------------------------
  // The display map

  /** The user a cadet's user_id points to. */
  function CadetUser(s: DbState, cadet: Entry): Option<Entry> {
    Follow(s, Users, cadet.doc, "user_id")
  }

  lemma ConcatTail(a: string, b: string, c: string, d: string)
    ensures (a + b + c + d)[|a|..] == b + c + d
  {
    assert forall k :: 0 <= k < |b + c + d| ==> (a + b + c + d)[|a| + k] == (b + c + d)[k];
  }

  /** `f"{name} ({rank})"`, the name being first and last name joined by a
      space and stripped. */
  function DisplayText(user: Doc, cadet: Doc): (r: string)
    ensures var tail := " (" + FieldText(cadet, "rank") + ")";
            |tail| <= |r| && r[|r| - |tail|..] == tail
  {
    var name := Strip(FieldText(user, "first_name") + " " + FieldText(user, "last_name"));
    var rank := FieldText(cadet, "rank");
    ConcatTail(name, " (", rank, ")");
    name + " (" + rank + ")"
  }

  /** The text a cadet is shown under, None when its user does not resolve
      (the loop skips it). */
  function CadetKey(s: DbState, cadet: Entry): (r: Option<string>)
    ensures r.Some? <==> CadetUser(s, cadet).Some?
  {
    match CadetUser(s, cadet)
    case None => None
    case Some(user) => Some(DisplayText(user.doc, cadet.doc))
  }

  function Keys(s: DbState, cadets: Table): (r: seq<Option<string>>)
    ensures |r| == |cadets| && forall i :: 0 <= i < |cadets| ==> r[i] == CadetKey(s, cadets[i])
  {
    seq(|cadets|, i requires 0 <= i < |cadets| => CadetKey(s, cadets[i]))
  }

  function Ids(cadets: Table): (r: seq<Id>)
    ensures |r| == |cadets| && forall i :: 0 <= i < |cadets| ==> r[i] == cadets[i].id
  {
    seq(|cadets|, i requires 0 <= i < |cadets| => cadets[i].id)
  }

  /** The display map of a list of cadets: each cadet whose user resolves,
      under its display text, the cadet's id as value; a later cadet shown
      under the same text replaces an earlier one. */
  function DisplayMap(s: DbState, cadets: Table): map<string, Id> {
    LastWins(Keys(s, cadets), Ids(cadets))
  }

  /** A text is in the map iff some cadet whose user resolves is shown
      under it: a cadet whose user does not resolve is left out. */
  lemma DisplayMapKeys(s: DbState, cadets: Table, text: string)
    ensures text in DisplayMap(s, cadets) <==> exists i :: 0 <= i < |cadets| && CadetKey(s, cadets[i]) == Some(text)
  {
    var keys := Keys(s, cadets);
    LastWinsKeys(keys, Ids(cadets), text);
    if text in DisplayMap(s, cadets) {
      var i :| 0 <= i < |keys| && keys[i] == Some(text);
      assert CadetKey(s, cadets[i]) == Some(text);
    }
    if exists i :: 0 <= i < |cadets| && CadetKey(s, cadets[i]) == Some(text) {
      var i :| 0 <= i < |cadets| && CadetKey(s, cadets[i]) == Some(text);
      assert keys[i] == Some(text);
    }
  }

  /** A text leads to the last cadet shown under it. */
  lemma DisplayMapValue(s: DbState, cadets: Table, text: string, i: int)
    requires 0 <= i < |cadets| && CadetKey(s, cadets[i]) == Some(text)
    requires forall j :: i < j < |cadets| ==> CadetKey(s, cadets[j]) != Some(text)
    ensures text in DisplayMap(s, cadets) && DisplayMap(s, cadets)[text] == cadets[i].id
  {
    var keys := Keys(s, cadets);
    var ids := Ids(cadets);
    assert forall j :: i < j < |keys| ==> keys[j] != Some(text);
    LastWinsValue(keys, ids, text, i);
  }

  /** build_cadet_display_map: the loop over all cadets. */
  method BuildCadetDisplayMap(s: DbState) returns (displayMap: map<string, Id>)
    ensures displayMap == DisplayMap(s, Every(s, Cadets))
  {
    var cadets := Every(s, Cadets);
    ghost var keys := Keys(s, cadets);
    ghost var ids := Ids(cadets);
    displayMap := map[];
    for i := 0 to |cadets|
      invariant displayMap == LastWins(keys[..i], ids[..i])
    {
      LastWinsStep(keys, ids, i);
      var user := Follow(s, Users, cadets[i].doc, "user_id");
      assert keys[i] == CadetKey(s, cadets[i]) && ids[i] == cadets[i].id;
      if user.Some? {
        var name := Strip(FieldText(user.value.doc, "first_name") + " " + FieldText(user.value.doc, "last_name"));
        var rank := FieldText(cadets[i].doc, "rank");
        displayMap := displayMap[name + " (" + rank + ")" := cadets[i].id];
      }
    }
    assert keys[..|cadets|] == keys && ids[..|cadets|] == ids;
  }

  // ---------------------------------------------------------------------
  // The buttons

  datatype CreateOutcome = MissingFields | CreateTried(result: InsertResult)

  /** "Create Flight": only with a name and a commander chosen from the map. */
  function CreateFlightAction(s: DbState, name: string, choice: string): (r: (DbState, CreateOutcome))
    ensures r.1.CreateTried? ==> name != ""
    ensures !(r.1.CreateTried? && r.1.result.Inserted?) ==> r.0 == s
  {
    var m := DisplayMap(s, Every(s, Cadets));
    if name == "" || choice !in m then (s, MissingFields)
    else
      var (s2, res) := Store.Insert(s, Flights, FlightDoc(name, m[choice]));
      (s2, CreateTried(res))
  }

  /** A flight is written only when both the name and the commander are
      given; its commander is the cadet the chosen text leads to. */
  lemma CreateNeedsNameAndCommander(s: DbState, name: string, choice: string)
    ensures CreateFlightAction(s, name, choice).1 == MissingFields <==>
              name == "" || choice !in DisplayMap(s, Every(s, Cadets))
    ensures CreateFlightAction(s, name, choice).1 == MissingFields ==> CreateFlightAction(s, name, choice).0 == s
    ensures var (s2, r) := CreateFlightAction(s, name, choice);
            r.CreateTried? && r.result.Inserted? ==>
              Tab(s2, Flights) ==
                Tab(s, Flights) + [Entry(r.result.id, FlightDoc(name, DisplayMap(s, Every(s, Cadets))[choice]))]
  {
  }

  /** With the indexes in place, once a flight of a name is created a second
      flight of the same name is refused, whoever its commander. */
  lemma SameNameRefused(s: DbState, name: string, commander: Id, commander2: Id)
    requires Valid(s) && s.indexed
    ensures var (s1, r1) := Store.Insert(s, Flights, FlightDoc(name, commander));
            r1.Inserted? ==> Store.Insert(s1, Flights, FlightDoc(name, commander2)).1 == DuplicateKey
  {
    var d := FlightDoc(name, commander);
    var d2 := FlightDoc(name, commander2);
    var (s1, r1) := Store.Insert(s, Flights, d);
    if r1.Inserted? {
      var t1 := Tab(s1, Flights);
      assert s1.connected && s1.indexed && t1 == Tab(s, Flights) + [Entry(s.nextId, d)];
      SameNameCollides(name, commander, commander2);
      assert Collide(t1[|t1| - 1].doc, d2, UniqueFields(Flights));
    }
  }

  /** Two flights of one name collide on the unique index of names. */
  lemma SameNameCollides(name: string, commander: Id, commander2: Id)
    ensures Collide(FlightDoc(name, commander), FlightDoc(name, commander2), UniqueFields(Flights))
  {
    assert IndexKey(FlightDoc(name, commander), ["name"]) == [Str(name)];
    assert IndexKey(FlightDoc(name, commander2), ["name"]) == [Str(name)];
  }

  /** "Assign Cadet": only with a cadet chosen from the map. */
  function AssignAction(s: DbState, flightId: Id, choice: string): (r: (DbState, Option<WriteResult>))
    ensures r.1.None? <==> choice !in DisplayMap(s, Every(s, Cadets))
    ensures r.1 != Some(Acknowledged(1)) ==> r.0 == s
  {
    var m := DisplayMap(s, Every(s, Cadets));
    if choice !in m then (s, None)
    else
      var (s2, res) := AssignToFlight(s, m[choice], flightId);
      (s2, Some(res))
  }

  /** In a table where every entry of the cadet is in the flight, no other
      flight lists the cadet. */
  lemma OnlyOneFlight(t: Table, cadetId: Id, flightId: Id)
    requires forall j :: 0 <= j < |t| && t[j].id == cadetId ==> Matches(t[j], "flight_id", Ref(flightId))
    ensures forall other, e :: other != flightId && e in t && Matches(e, "flight_id", Ref(other)) ==> e.id != cadetId
  {
  }

  /** After an assignment the cadet is a member of that flight and of no
      other: assigning again moves it. */
  lemma AssignMovesCadet(s: DbState, cadetId: Id, flightId: Id)
    requires Valid(s) && s.connected && ById(s, Cadets, cadetId).Some?
    requires AssignToFlight(s, cadetId, flightId).1 == Acknowledged(1)
    ensures var s2 := AssignToFlight(s, cadetId, flightId).0;
            && (exists e :: e in GetCadetsByFlight(s2, flightId) && e.id == cadetId)
            && forall other, e :: other != flightId && e in GetCadetsByFlight(s2, other) ==> e.id != cadetId
  {
    AssignChangesOnlyFlight(s, cadetId, flightId);
    var s2 := AssignToFlight(s, cadetId, flightId).0;
    assert s2.connected;
    var t := Tab(s, Cadets);
    var t2 := Tab(s2, Cadets);
    assert forall j :: 0 <= j < |t2| && t2[j].id == cadetId ==> Matches(t2[j], "flight_id", Ref(flightId)) by {
      forall j | 0 <= j < |t2| && t2[j].id == cadetId ensures Matches(t2[j], "flight_id", Ref(flightId)) {
        assert t[j].id == cadetId;
      }
    }
    OnlyOneFlight(t2, cadetId, flightId);
    var k :| 0 <= k < |t| && t[k].id == cadetId;
    assert t2[k] in t2;
  }

  /** "Delete Flight": the flight goes, its members keep their flight_id,
      so they are still listed under the deleted flight's id. */
  lemma DeletedFlightKeepsMembers(s: DbState, flightId: Id)
    requires Valid(s)
    ensures GetCadetsByFlight(Delete(s, Flights, flightId).0, flightId) == GetCadetsByFlight(s, flightId)
    ensures ById(Delete(s, Flights, flightId).0, Flights, flightId).None?
  {
    DeleteRemovesOnlyThatId(s, Flights, flightId);
  }

  /** The create button on the database. */
  method CreateFlightButton(db: Database, name: string, choice: string) returns (r: CreateOutcome)
    requires db.Valid()
    modifies db
    ensures db.Valid()
    ensures (db.State(), r) == CreateFlightAction(old(db.State()), name, choice)
  {
    var displayMap := BuildCadetDisplayMap(db.State());
    if name == "" || choice !in displayMap {
      return MissingFields;
    }
    var res := db.CreateFlight(name, displayMap[choice]);
    r := CreateTried(res);
  }

  /** The assign button on the database. */
  method AssignButton(db: Database, flightId: Id, choice: string) returns (r: Option<WriteResult>)
    requires db.Valid()
    modifies db
    ensures db.Valid()
    ensures (db.State(), r) == AssignAction(old(db.State()), flightId, choice)
  {
    var displayMap := BuildCadetDisplayMap(db.State());
    if choice !in displayMap {
      return None;
    }
    var res := db.AssignCadetToFlight(displayMap[choice], flightId);
    r := Some(res);
  }
}
