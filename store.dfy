/** The document store under the application: eight collections of
    documents, each kept in natural (insertion) order, with the unique
    indexes of utils/create_indexes.py as an invariant. This module is the
    pure specification of the store; the class Crud.Database holds the same
    state in fields and its methods are proved against these functions. */
module Store {
  import opened Common

  datatype Coll =
    | Users | Cadets | Events | EventAssignments
    | AttendanceRecords | Waivers | WaiverApprovals | Flights

  /** A stored document and its `_id`. */
  datatype Entry = Entry(id: Id, doc: Doc)

  type Table = seq<Entry>

  /** The fields of each collection's unique index. */
  function UniqueFields(c: Coll): seq<string> {
    match c
    case Users => ["email"]
    case Cadets => ["user_id"]
    case EventAssignments => ["event_id", "cadet_id"]
    case AttendanceRecords => ["event_id", "cadet_id"]
    case Waivers => ["attendance_record_id"]
    case Flights => ["name"]
    case Events => []
    case WaiverApprovals => []
  }

  /** The index entry of a document: a missing field is indexed as null. */
  function IndexKey(d: Doc, fields: seq<string>): (r: seq<Value>)
    ensures |r| == |fields|
    ensures forall k :: 0 <= k < |fields| ==> r[k] == (if fields[k] in d then d[fields[k]] else Null)
  {
    if fields == [] then []
    else [if fields[0] in d then d[fields[0]] else Null] + IndexKey(d, fields[1..])
  }

  /** Two documents would violate a unique index on these fields. */
  predicate Collide(d: Doc, e: Doc, fields: seq<string>) {
    fields != [] && IndexKey(d, fields) == IndexKey(e, fields)
  }

  /** Some document of the table collides with d. */
  predicate Clashes(t: Table, d: Doc, fields: seq<string>) {
    exists i :: 0 <= i < |t| && Collide(t[i].doc, d, fields)
  }

  predicate UniqueIn(t: Table, fields: seq<string>) {
    forall i, j :: 0 <= i < j < |t| ==> !Collide(t[i].doc, t[j].doc, fields)
  }

  predicate DistinctIds(t: Table) {
    forall i, j :: 0 <= i < j < |t| ==> t[i].id != t[j].id
  }

  predicate IdsBelow(t: Table, bound: Id) {
    forall i :: 0 <= i < |t| ==> t[i].id < bound
  }

  /** The whole database. `connected` is false when no client is configured
      (get_collection returns None); `indexed` says the unique indexes exist
      (they are built when the client connects and dropped with their
      collections); `nextId` is above every ObjectId handed out. */
  datatype DbState = DbState(connected: bool, indexed: bool, tables: map<Coll, Table>, nextId: Id)

  function Tab(s: DbState, c: Coll): Table {
    if c in s.tables then s.tables[c] else []
  }

  ghost predicate Valid(s: DbState) {
    && (forall c :: c in s.tables)
    && (forall c :: DistinctIds(Tab(s, c)) && IdsBelow(Tab(s, c), s.nextId))
    && (s.indexed ==> forall c :: UniqueIn(Tab(s, c), UniqueFields(c)))
  }

  /** What insert_one reports. A duplicate key is raised by pymongo; here it is a result. */
  datatype InsertResult = Unavailable | DuplicateKey | Inserted(id: Id)

  /** What update_one and delete_one report: the number of documents matched. */
  datatype WriteResult = NoCollection | Clash | Acknowledged(count: nat)

  // ---------------------------------------------------------------------
  // Reads

  /** The first entry of the table with this `_id`. */
  function FindId(t: Table, id: Id): (r: Option<Entry>)
    ensures r.Some? ==> r.value in t && r.value.id == id
    ensures r.None? ==> forall i :: 0 <= i < |t| ==> t[i].id != id
  {
    if t == [] then None else if t[0].id == id then Some(t[0]) else FindId(t[1..], id)
  }

  /** The document has the value at this field (a MongoDB equality filter). */
  predicate Matches(e: Entry, field: string, v: Value) {
    field in e.doc && e.doc[field] == v
  }

  /** find_one: the first matching entry in natural order. */
  function FindFirst(t: Table, field: string, v: Value): (r: Option<Entry>)
    ensures r.Some? ==> r.value in t && Matches(r.value, field, v)
    ensures r.None? ==> forall i :: 0 <= i < |t| ==> !Matches(t[i], field, v)
  {
    if t == [] then None
    else if Matches(t[0], field, v) then Some(t[0])
    else FindFirst(t[1..], field, v)
  }

  /** The entry find_one returns is the earliest match. */
  lemma {:induction false} FindFirstIsFirst(t: Table, field: string, v: Value, i: nat)
    requires i < |t| && Matches(t[i], field, v)
    requires forall j :: 0 <= j < i ==> !Matches(t[j], field, v)
    ensures FindFirst(t, field, v) == Some(t[i])
  {
    if i > 0 {
      assert !Matches(t[0], field, v);
      FindFirstIsFirst(t[1..], field, v, i - 1);
    }
  }

  /** find: every matching entry, in natural order. */
  function FindAll(t: Table, field: string, v: Value): (r: Table)
    ensures |r| <= |t|
    ensures forall e :: e in r <==> e in t && Matches(e, field, v)
    ensures (forall i :: 0 <= i < |t| ==> !Matches(t[i], field, v)) ==> r == []
  {
    if t == [] then []
    else if Matches(t[0], field, v) then [t[0]] + FindAll(t[1..], field, v)
    else FindAll(t[1..], field, v)
  }

  /** find_one({"_id": id}) on a collection; None when the store is unavailable. */
  function ById(s: DbState, c: Coll, id: Id): (r: Option<Entry>)
    ensures r.Some? <==> s.connected && exists i :: 0 <= i < |Tab(s, c)| && Tab(s, c)[i].id == id
    ensures r.Some? ==> r.value in Tab(s, c) && r.value.id == id
  {
    if s.connected then FindId(Tab(s, c), id) else None
  }

  /** The document a reference field of d points to: find_one({"_id": d[field]})
      when the field holds an ObjectId, None when it is missing, None or of
      another kind. */
  function Follow(s: DbState, c: Coll, d: Doc, field: string): (r: Option<Entry>)
    ensures r.Some? ==> RefOf(d, field).Some? && r == ById(s, c, RefOf(d, field).value)
    ensures RefOf(d, field).Some? ==> r == ById(s, c, RefOf(d, field).value)
  {
    match RefOf(d, field)
    case None => None
    case Some(id) => ById(s, c, id)
  }

  /** find_one({field: v}); None when the store is unavailable. */
  function One(s: DbState, c: Coll, field: string, v: Value): (r: Option<Entry>)
    ensures r.Some? ==> s.connected && r.value in Tab(s, c) && Matches(r.value, field, v)
    ensures r.None? && s.connected ==> forall e :: e in Tab(s, c) ==> !Matches(e, field, v)
  {
    if s.connected then FindFirst(Tab(s, c), field, v) else None
  }

  /** list(find({field: v})); empty when the store is unavailable. */
  function Many(s: DbState, c: Coll, field: string, v: Value): (r: Table)
    ensures forall e :: e in r <==> s.connected && e in Tab(s, c) && Matches(e, field, v)
  {
    if s.connected then FindAll(Tab(s, c), field, v) else []
  }

  /** list(find()); empty when the store is unavailable. */
  function Every(s: DbState, c: Coll): (r: Table)
    ensures r == (if s.connected then Tab(s, c) else [])
  {
    if s.connected then Tab(s, c) else []
  }

  // ---------------------------------------------------------------------
  // Writes

  /** The table with the document of `id` replaced by d. */
  function Replace(t: Table, id: Id, d: Doc): (r: Table)
    ensures |r| == |t|
    ensures forall i :: 0 <= i < |t| ==> r[i] == (if t[i].id == id then Entry(id, d) else t[i])
  {
    seq(|t|, i requires 0 <= i < |t| => if t[i].id == id then Entry(id, d) else t[i])
  }

  /** The table without the entries of `id`. */
  function Without(t: Table, id: Id): (r: Table)
    ensures |r| <= |t|
    ensures forall e :: e in r <==> e in t && e.id != id
  {
    if t == [] then []
    else if t[0].id == id then Without(t[1..], id)
    else [t[0]] + Without(t[1..], id)
  }

  /** insert_one: a fresh `_id`, appended in natural order; refused when a
      unique index would be violated. */
  function Insert(s: DbState, c: Coll, d: Doc): (r: (DbState, InsertResult))
    ensures r.1.Unavailable? <==> !s.connected
    ensures !r.1.Inserted? ==> r.0 == s
    ensures r.1.Inserted? ==> r.1.id == s.nextId && r.0.nextId == s.nextId + 1
  {
    if !s.connected then (s, Unavailable)
    else if s.indexed && Clashes(Tab(s, c), d, UniqueFields(c)) then (s, DuplicateKey)
    else (s.(tables := s.tables[c := Tab(s, c) + [Entry(s.nextId, d)]], nextId := s.nextId + 1),
          Inserted(s.nextId))
  }

  /** update_one({"_id": id}, {"$set": updates}). */
  function Update(s: DbState, c: Coll, id: Id, updates: Doc): (r: (DbState, WriteResult))
    ensures r.1 == NoCollection <==> !s.connected
    ensures r.1 == Acknowledged(0) <==> s.connected && FindId(Tab(s, c), id).None?
    ensures r.1 != Acknowledged(1) ==> r.0 == s
    ensures r.0.nextId == s.nextId && r.0.indexed == s.indexed
  {
    if !s.connected then (s, NoCollection)
    else
      match FindId(Tab(s, c), id)
      case None => (s, Acknowledged(0))
      case Some(e) =>
        var d := e.doc + updates;
        if s.indexed && Clashes(Without(Tab(s, c), id), d, UniqueFields(c)) then (s, Clash)
        else (s.(tables := s.tables[c := Replace(Tab(s, c), id, d)]), Acknowledged(1))
  }

  /** delete_one({"_id": id}). */
  function Delete(s: DbState, c: Coll, id: Id): (r: (DbState, WriteResult))
    ensures r.1 == NoCollection <==> !s.connected
    ensures r.1 == NoCollection ==> r.0 == s
    ensures r.1 == Acknowledged(1) <==> s.connected && FindId(Tab(s, c), id).Some?
    ensures r.0.nextId == s.nextId && r.0.indexed == s.indexed
  {
    if !s.connected then (s, NoCollection)
    else
      var n := if FindId(Tab(s, c), id).Some? then 1 else 0;
      (s.(tables := s.tables[c := Without(Tab(s, c), id)]), Acknowledged(n))
  }

  /** drop_collection: the documents and the collection's indexes go. */
  function Drop(s: DbState, c: Coll): (r: DbState)
    ensures !s.connected ==> r == s
    ensures s.connected ==> Tab(r, c) == [] && !r.indexed && r.nextId == s.nextId
  {
    if !s.connected then s else s.(tables := s.tables[c := []], indexed := false)
  }

  /** Every collection satisfies its unique index. */
  predicate AllUnique(s: DbState) {
    forall c :: UniqueIn(Tab(s, c), UniqueFields(c))
  }

  /** create_indexes: building a unique index fails on existing duplicates. */
  function CreateIndexes(s: DbState): (r: (DbState, bool))
    ensures r.1 <==> s.connected && AllUnique(s)
    ensures r.0.indexed == (s.indexed || r.1) && r.0.tables == s.tables && r.0.nextId == s.nextId
  {
    if s.connected && AllUnique(s) then (s.(indexed := true), true) else (s, false)
  }

  // ---------------------------------------------------------------------
  // Properties

  /** An insert keeps the store consistent; with the indexes in place no
      unique key is ever duplicated. */
  lemma InsertKeepsValid(s: DbState, c: Coll, d: Doc)
    requires Valid(s)
    ensures Valid(Insert(s, c, d).0)
  {
    var (s', r) := Insert(s, c, d);
    if r.Inserted? {
      AppendFresh(Tab(s, c), s.nextId, d);
      if s.indexed {
        AppendUnique(Tab(s, c), Entry(s.nextId, d), UniqueFields(c));
      }
      forall c' | c' != c
        ensures DistinctIds(Tab(s', c')) && IdsBelow(Tab(s', c'), s'.nextId)
        ensures s'.indexed ==> UniqueIn(Tab(s', c'), UniqueFields(c'))
      {
        assert Tab(s', c') == Tab(s, c');
      }
    }
  }

  /** An entry under a fresh id keeps the ids distinct and below the next one. */
  lemma AppendFresh(t: Table, id: Id, d: Doc)
    requires DistinctIds(t) && IdsBelow(t, id)
    ensures DistinctIds(t + [Entry(id, d)]) && IdsBelow(t + [Entry(id, d)], id + 1)
  {
  }

  /** An entry that clashes with none keeps an index unique. */
  lemma AppendUnique(t: Table, e: Entry, fields: seq<string>)
    requires UniqueIn(t, fields) && !Clashes(t, e.doc, fields)
    ensures UniqueIn(t + [e], fields)
  {
    var t' := t + [e];
    forall i, j | 0 <= i < j < |t'| ensures !Collide(t'[i].doc, t'[j].doc, fields) {
      if j == |t| {
        assert !Collide(t[i].doc, e.doc, fields);
      } else {
        assert t'[i] == t[i] && t'[j] == t[j];
      }
    }
  }

  /** A successful insert appends exactly the given document under a fresh id
      and changes no other collection. */
  lemma InsertAppends(s: DbState, c: Coll, d: Doc)
    requires Valid(s)
    ensures var (s', r) := Insert(s, c, d);
      && (r.Unavailable? <==> !s.connected)
      && (r.DuplicateKey? <==> s.connected && s.indexed && Clashes(Tab(s, c), d, UniqueFields(c)))
      && (r.Inserted? ==> Tab(s', c) == Tab(s, c) + [Entry(r.id, d)] && ById(s, c, r.id).None?)
      && (!r.Inserted? ==> s' == s)
      && forall c' :: c' != c ==> Tab(s', c') == Tab(s, c')
  {
    var (s', r) := Insert(s, c, d);
    if r.Inserted? {
      assert forall i :: 0 <= i < |Tab(s, c)| ==> Tab(s, c)[i].id < s.nextId;
    }
  }

  /** An insert leaves every other collection and the connection as they were. */
  lemma InsertKeepsOtherTab(s: DbState, c: Coll, d: Doc, c': Coll)
    requires c' != c
    ensures Insert(s, c, d).0.connected == s.connected && Tab(Insert(s, c, d).0, c') == Tab(s, c')
  {
  }

  /** An update is a `$set` merge: the matched document takes the supplied
      fields, keeps every other field, and nothing else in the store changes. */
  lemma UpdateSetsOnlySuppliedFields(s: DbState, c: Coll, id: Id, updates: Doc)
    requires Valid(s)
    ensures var (s', r) := Update(s, c, id, updates);
      && (r.Acknowledged? && r.count == 1 ==>
            |Tab(s', c)| == |Tab(s, c)| &&
            forall i :: 0 <= i < |Tab(s, c)| ==>
              var (e, e') := (Tab(s, c)[i], Tab(s', c)[i]);
              e'.id == e.id &&
              (e.id != id ==> e' == e) &&
              (e.id == id ==> forall k :: (k in e'.doc <==> k in e.doc || k in updates) &&
                                         (k in updates ==> e'.doc[k] == updates[k]) &&
                                         (k !in updates && k in e.doc ==> e'.doc[k] == e.doc[k])))
      && (!(r.Acknowledged? && r.count == 1) ==> s' == s)
      && (r.Acknowledged? && r.count == 0 <==> s.connected && ById(s, c, id).None?)
      && forall c' :: c' != c ==> Tab(s', c') == Tab(s, c')
  {
  }

  /** An update touches only its own collection and neither the connection,
      the indexes nor the id counter. */
  lemma UpdateKeepsOthers(s: DbState, c: Coll, id: Id, updates: Doc)
    ensures var s' := Update(s, c, id, updates).0;
      && s'.connected == s.connected && s'.indexed == s.indexed && s'.nextId == s.nextId
      && forall c' :: c' != c ==> Tab(s', c') == Tab(s, c')
  {
  }

  lemma ReplaceKeeps(t: Table, id: Id, d: Doc, fields: seq<string>, bound: Id)
    requires DistinctIds(t) && IdsBelow(t, bound)
    requires UniqueIn(t, fields) && !Clashes(Without(t, id), d, fields)
    ensures DistinctIds(Replace(t, id, d)) && IdsBelow(Replace(t, id, d), bound)
    ensures UniqueIn(Replace(t, id, d), fields)
  {
    var t' := Replace(t, id, d);
    forall i, j | 0 <= i < j < |t'| ensures !Collide(t'[i].doc, t'[j].doc, fields) {
      if t[i].id == id {
        assert t[j] in Without(t, id);
      } else if t[j].id == id {
        assert t[i] in Without(t, id);
      }
    }
  }

  lemma UpdateKeepsValid(s: DbState, c: Coll, id: Id, updates: Doc)
    requires Valid(s)
    ensures Valid(Update(s, c, id, updates).0)
  {
    var (s', r) := Update(s, c, id, updates);
    if r == Acknowledged(1) {
      var t := Tab(s, c);
      var d := FindId(t, id).value.doc + updates;
      assert Tab(s', c) == Replace(t, id, d);
      forall c' ensures DistinctIds(Tab(s', c')) && IdsBelow(Tab(s', c'), s'.nextId) &&
                        (s.indexed ==> UniqueIn(Tab(s', c'), UniqueFields(c'))) {
        if c' == c {
          if s.indexed {
            ReplaceKeeps(t, id, d, UniqueFields(c), s.nextId);
          } else {
            ReplaceKeeps(t, id, d, [], s.nextId);
          }
        } else {
          assert Tab(s', c') == Tab(s, c');
        }
      }
    }
  }

  /** A document with the same index key as an entry of a unique table
      collides with no other entry. */
  lemma SameKeyNoClash(t: Table, id: Id, b: nat, d: Doc, fields: seq<string>)
    requires UniqueIn(t, fields) && b < |t| && t[b].id == id
    requires IndexKey(d, fields) == IndexKey(t[b].doc, fields)
    ensures !Clashes(Without(t, id), d, fields)
  {
    forall i | 0 <= i < |Without(t, id)| ensures !Collide(Without(t, id)[i].doc, d, fields) {
      var x := Without(t, id)[i];
      assert x in Without(t, id);
      var a :| 0 <= a < |t| && t[a] == x;
      if a < b {
        assert !Collide(t[a].doc, t[b].doc, fields);
      } else {
        assert !Collide(t[b].doc, t[a].doc, fields);
      }
    }
  }

  /** An update that leaves the unique fields alone never clashes: it
      succeeds whenever the document exists. */
  lemma UpdateOffIndexSucceeds(s: DbState, c: Coll, id: Id, updates: Doc)
    requires Valid(s) && s.connected && FindId(Tab(s, c), id).Some?
    requires forall k :: k in UniqueFields(c) ==> k !in updates
    ensures Update(s, c, id, updates).1 == Acknowledged(1)
  {
    var t := Tab(s, c);
    var e := FindId(t, id).value;
    var d := e.doc + updates;
    var fields := UniqueFields(c);
    assert IndexKey(d, fields) == IndexKey(e.doc, fields);
    if s.indexed {
      var b :| 0 <= b < |t| && t[b] == e;
      assert UniqueIn(t, fields);
      SameKeyNoClash(t, id, b, d, fields);
    }
  }

  /** After replacing the document of an existing id, looking that id up
      finds the new document. */
  lemma {:induction false} FindIdReplace(t: Table, id: Id, d: Doc)
    requires FindId(t, id).Some?
    ensures FindId(Replace(t, id, d), id) == Some(Entry(id, d))
  {
    if t[0].id != id {
      FindIdReplace(t[1..], id, d);
      assert Replace(t, id, d)[1..] == Replace(t[1..], id, d);
    }
  }

  /** After an update that leaves the unique fields alone, the document
      holds the merge of its old fields and the updates. */
  lemma UpdateThenFind(s: DbState, c: Coll, id: Id, updates: Doc)
    requires Valid(s) && s.connected && FindId(Tab(s, c), id).Some?
    requires forall k :: k in UniqueFields(c) ==> k !in updates
    ensures ById(Update(s, c, id, updates).0, c, id) == Some(Entry(id, FindId(Tab(s, c), id).value.doc + updates))
  {
    var e := FindId(Tab(s, c), id).value;
    UpdateOffIndexSucceeds(s, c, id, updates);
    var s1 := Update(s, c, id, updates).0;
    assert Tab(s1, c) == Replace(Tab(s, c), id, e.doc + updates);
    FindIdReplace(Tab(s, c), id, e.doc + updates);
  }

  /** A delete removes the one document with that id and nothing else: it
      never cascades to other collections. */
  lemma DeleteRemovesOnlyThatId(s: DbState, c: Coll, id: Id)
    requires Valid(s)
    ensures var (s', r) := Delete(s, c, id);
      && (!s.connected ==> s' == s && r == NoCollection)
      && (s.connected ==> r == Acknowledged(if ById(s, c, id).Some? then 1 else 0))
      && (forall e :: e in Tab(s', c) <==> e in Tab(s, c) && (!s.connected || e.id != id))
      && forall c' :: c' != c ==> Tab(s', c') == Tab(s, c')
  {
  }

  lemma {:induction false} WithoutKeeps(t: Table, id: Id, fields: seq<string>, bound: Id)
    requires DistinctIds(t) && IdsBelow(t, bound) && UniqueIn(t, fields)
    ensures DistinctIds(Without(t, id)) && IdsBelow(Without(t, id), bound) && UniqueIn(Without(t, id), fields)
  {
    if t != [] {
      WithoutKeeps(t[1..], id, fields, bound);
      var w := Without(t[1..], id);
      if t[0].id != id {
        assert Without(t, id) == [t[0]] + w;
        forall j | 0 <= j < |w| ensures w[j].id != t[0].id && !Collide(t[0].doc, w[j].doc, fields) {
          assert w[j] in t[1..];
        }
      }
    }
  }

  lemma DeleteKeepsValid(s: DbState, c: Coll, id: Id)
    requires Valid(s)
    ensures Valid(Delete(s, c, id).0)
  {
    var s' := Delete(s, c, id).0;
    if s.connected {
      forall c' ensures DistinctIds(Tab(s', c')) && IdsBelow(Tab(s', c'), s'.nextId) &&
                        (s.indexed ==> UniqueIn(Tab(s', c'), UniqueFields(c'))) {
        if c' == c {
          if s.indexed {
            WithoutKeeps(Tab(s, c), id, UniqueFields(c), s.nextId);
          } else {
            WithoutKeeps(Tab(s, c), id, [], s.nextId);
          }
        } else {
          assert Tab(s', c') == Tab(s, c');
        }
      }
    }
  }

  /** When no client is configured every write reports so and changes
      nothing, and every read finds nothing. */
  lemma UnavailableChangesNothing(s: DbState, c: Coll, d: Doc, id: Id, field: string, v: Value)
    requires !s.connected
    ensures Insert(s, c, d) == (s, Unavailable)
    ensures Update(s, c, id, d) == (s, NoCollection)
    ensures Delete(s, c, id) == (s, NoCollection)
    ensures ById(s, c, id) == None && One(s, c, field, v) == None
    ensures Many(s, c, field, v) == [] && Every(s, c) == []
  {
  }

  /** A collection can be dropped and its indexes rebuilt. */
  lemma DropKeepsValid(s: DbState, c: Coll)
    requires Valid(s)
    ensures Valid(Drop(s, c))
  {
    var s' := Drop(s, c);
    if s.connected {
      forall c' ensures DistinctIds(Tab(s', c')) && IdsBelow(Tab(s', c'), s'.nextId) {
        if c' != c { assert Tab(s', c') == Tab(s, c'); }
      }
    }
  }

  lemma CreateIndexesKeepsValid(s: DbState)
    requires Valid(s)
    ensures Valid(CreateIndexes(s).0)
    ensures CreateIndexes(s).1 <==> s.connected && AllUnique(s)
    ensures CreateIndexes(s).1 ==> CreateIndexes(s).0.indexed
  {
    assert forall c :: Tab(CreateIndexes(s).0, c) == Tab(s, c);
  }
}
