/** pages/3_Cadets.py: the input check of the add and edit forms (two
    regular expressions and a fixed order of messages), the rank select
    box's starting position, and adding a cadet for an existing user. */
module CadetAdmin {
  import opened Common
  import opened Store
  import opened Crud

  // ---------------------------------------------------------------------
  // Names: [A-Za-z'-]+(?: [A-Za-z'-]+)*

  predicate Letter(c: char) {
    'A' <= c <= 'Z' || 'a' <= c <= 'z'
  }

  predicate NameChar(c: char) {
    Letter(c) || c == '\'' || c == '-'
  }

  /** One run of the name pattern: [A-Za-z'-]+ */
  predicate Word(w: string) {
    w != [] && forall k :: 0 <= k < |w| ==> NameChar(w[k])
  }

  /** The runs joined by single spaces. */
  function JoinSpace(words: seq<string>): string
    requires |words| >= 1
  {
    if |words| == 1 then words[0] else words[0] + " " + JoinSpace(words[1..])
  }

  /** The language of the name pattern under re.fullmatch: one run, then
      any number of runs each after one space. */
  ghost predicate NameLang(s: string) {
    exists words: seq<string> :: |words| >= 1 && (forall i :: 0 <= i < |words| ==> Word(words[i])) && JoinSpace(words) == s
  }

  /** The check the page applies, read off the pattern: letters, apostrophes,
      hyphens and single inner spaces. */
  predicate ValidName(s: string) {
    && s != [] && s[0] != ' ' && s[|s| - 1] != ' '
    && (forall k :: 0 <= k < |s| ==> NameChar(s[k]) || s[k] == ' ')
    && (forall k :: 0 <= k < |s| - 1 ==> !(s[k] == ' ' && s[k + 1] == ' '))
  }

  /** Every joining of runs passes the check. */
  lemma {:induction false} JoinValid(words: seq<string>)
    requires |words| >= 1 && forall i :: 0 <= i < |words| ==> Word(words[i])
    ensures ValidName(JoinSpace(words))
  {
    if |words| > 1 {
      var rest := words[1..];
      assert forall i :: 0 <= i < |rest| ==> rest[i] == words[i + 1];
      JoinValid(rest);
      var w, t := words[0], JoinSpace(rest);
      var s := w + " " + t;
      assert Word(w);
      forall k | 0 <= k < |s| ensures NameChar(s[k]) || s[k] == ' ' {
        if k < |w| { assert s[k] == w[k]; }
        else if k > |w| { assert s[k] == t[k - |w| - 1]; }
      }
      forall k | 0 <= k < |s| - 1 ensures !(s[k] == ' ' && s[k + 1] == ' ') {
        if k < |w| { assert s[k] == w[k]; }
        else if k == |w| { assert s[k + 1] == t[0]; }
        else { assert s[k] == t[k - |w| - 1] && s[k + 1] == t[k - |w|]; }
      }
      assert s[0] == w[0] && s[|s| - 1] == t[|t| - 1];
    }
  }

  /** After the first space of a checked name, a checked name follows. */
  lemma TailValid(s: string, i: nat)
    requires ValidName(s) && i < |s| && s[i] == ' '
    ensures 0 < i && i + 1 < |s| && ValidName(s[i + 1..])
  {
    var tail := s[i + 1..];
    assert s[i + 1] != ' ';
    forall k | 0 <= k < |tail| - 1 ensures !(tail[k] == ' ' && tail[k + 1] == ' ') {
      assert tail[k] == s[i + 1 + k] && tail[k + 1] == s[i + 2 + k];
    }
    forall k | 0 <= k < |tail| ensures NameChar(tail[k]) || tail[k] == ' ' {
      assert tail[k] == s[i + 1 + k];
    }
  }

  /** Before the first space of a checked name, one run. */
  lemma HeadWord(s: string, i: nat)
    requires ValidName(s) && i <= |s| && 0 < i && forall k :: 0 <= k < i ==> s[k] != ' '
    ensures Word(s[..i])
  {
    forall k | 0 <= k < i ensures NameChar(s[..i][k]) {
      assert s[..i][k] == s[k];
    }
  }

  /** The runs of a checked name: split at each space. */
  function SplitSpace(s: string): (r: seq<string>)
    requires ValidName(s)
    ensures |r| >= 1 && (forall i :: 0 <= i < |r| ==> Word(r[i])) && JoinSpace(r) == s
    decreases |s|
  {
    match FirstIndexOf(s, ' ')
    case None =>
      HeadWord(s, |s|);
      assert s[..|s|] == s;
      [s]
    case Some(i) =>
      TailValid(s, i);
      HeadWord(s, i);
      var rest := SplitSpace(s[i + 1..]);
      var r := [s[..i]] + rest;
      assert r[1..] == rest;
      assert s == s[..i] + " " + s[i + 1..];
      r
  }

  /** The check accepts exactly the names the pattern matches. */
  lemma NameCheckIsPattern(s: string)
    ensures ValidName(s) <==> NameLang(s)
  {
    if ValidName(s) {
      var words := SplitSpace(s);
      assert |words| >= 1 && (forall i :: 0 <= i < |words| ==> Word(words[i])) && JoinSpace(words) == s;
    }
    if NameLang(s) {
      var words :| |words| >= 1 && (forall i :: 0 <= i < |words| ==> Word(words[i])) && JoinSpace(words) == s;
      JoinValid(words);
    }
  }

  // ---------------------------------------------------------------------
  // Emails: ^[A-Za-z0-9._%+-]+@[A-Za-z0-9.-]+\.[A-Za-z]{2,}$

  predicate Digit(c: char) {
    '0' <= c <= '9'
  }

  predicate LocalChar(c: char) {
    Letter(c) || Digit(c) || c == '.' || c == '_' || c == '%' || c == '+' || c == '-'
  }

  predicate DomainChar(c: char) {
    Letter(c) || Digit(c) || c == '.' || c == '-'
  }

  /** The pattern matched with the "@" at i and the last dot at j: a
      non-empty local part, a non-empty domain, and at least two letters. */
  predicate EmailAt(s: string, i: int, j: int) {
    && 1 <= i && i + 2 <= j && j + 3 <= |s|
    && s[i] == '@' && s[j] == '.'
    && (forall k :: 0 <= k < i ==> LocalChar(s[k]))
    && (forall k :: i < k < j ==> DomainChar(s[k]))
    && (forall k :: j < k < |s| ==> Letter(s[k]))
  }

  /** The language of the email pattern: some split of the text matches it. */
  ghost predicate EmailLang(s: string) {
    exists i, j :: EmailAt(s, i, j)
  }

  /** The check the page applies: the split at the first "@" and the last
      dot. */
  predicate ValidEmail(s: string) {
    match FirstIndexOf(s, '@')
    case None => false
    case Some(i) =>
      match LastIndexOf(s, '.')
      case None => false
      case Some(j) => EmailAt(s, i, j)
  }

  /** The check accepts exactly the emails the pattern matches: an "@" can
      only be the separator, and a dot after it is the last one, since the
      final part is letters only. */
  lemma EmailCheckIsPattern(s: string)
    ensures ValidEmail(s) <==> EmailLang(s)
  {
    if EmailLang(s) {
      var i, j :| EmailAt(s, i, j);
      assert forall k :: 0 <= k < i ==> s[k] != '@';
      assert FirstIndexOf(s, '@') == Some(i);
      assert forall k :: j < k < |s| ==> s[k] != '.';
      assert LastIndexOf(s, '.') == Some(j);
    }
  }

  /** Exactly one "@" in an accepted email. */
  lemma EmailHasOneAt(s: string, a: nat, b: nat)
    requires ValidEmail(s) && a < |s| && b < |s| && s[a] == '@' && s[b] == '@'
    ensures a == b
  {
    var i := FirstIndexOf(s, '@').value;
    var j := LastIndexOf(s, '.').value;
    assert EmailAt(s, i, j);
    assert !LocalChar('@') && !DomainChar('@') && !Letter('@');
  }

  // ---------------------------------------------------------------------
  // check_input

  const FillAll := "Please fill all the fields!"
  const BadFirst := "Please enter a valid first name! First name can only contain letters, apostrophes, and hyphens."
  const BadLast := "Please enter a valid last name! Last name can only contain letters, apostrophes, and hyphens."
  const BadEmail := "Please enter a valid email!"

  /** check_input: all three fields must be filled; then the first name,
      the last name and the email are checked in that order and only the
      first failure is reported. */
  function CheckInput(name: string, lastName: string, email: string): (r: (bool, string))
    ensures r.0 <==> r.1 == ""
    ensures r.0 <==> NameLang(name) && NameLang(lastName) && EmailLang(email) && email != ""
    ensures name == "" || lastName == "" || email == "" ==> r.1 == FillAll
    ensures name != "" && lastName != "" && email != "" ==>
              && (!NameLang(name) ==> r.1 == BadFirst)
              && (NameLang(name) && !NameLang(lastName) ==> r.1 == BadLast)
              && (NameLang(name) && NameLang(lastName) && !EmailLang(email) ==> r.1 == BadEmail)
  {
    NameCheckIsPattern(name);
    NameCheckIsPattern(lastName);
    EmailCheckIsPattern(email);
    if name != "" && lastName != "" && email != "" then
      if !ValidName(name) then (false, BadFirst)
      else if !ValidName(lastName) then (false, BadLast)
      else if !ValidEmail(email) then (false, BadEmail)
      else (true, "")
    else (false, FillAll)
  }

  /** A doubled space, or any character outside letters, apostrophes,
      hyphens and spaces, makes a name invalid. */
  lemma NameRefusals(s: string, k: nat)
    requires k < |s|
    ensures k + 1 < |s| && s[k] == ' ' && s[k + 1] == ' ' ==> !NameLang(s)
    ensures !NameChar(s[k]) && s[k] != ' ' ==> !NameLang(s)
  {
    NameCheckIsPattern(s);
  }

  // ---------------------------------------------------------------------
  // The rank select box

  const RankOptions: seq<string> := [
    "100/150 (freshman)",
    "200/250/500 (sophomore)",
    "300 (junior)",
    "400 (senior)",
    "700/800/900 (super senior)"]

  /** The select box's starting position in edit_cadet: the stored rank's
      position among the options, or the first when the rank is missing,
      not text or not one of them. */
  function RankIndex(cadet: Doc): (r: nat)
    ensures r < |RankOptions|
    ensures TextOf(cadet, "rank").Some? && TextOf(cadet, "rank").value in RankOptions ==>
              RankOptions[r] == TextOf(cadet, "rank").value
    ensures TextOf(cadet, "rank").None? || TextOf(cadet, "rank").value !in RankOptions ==> r == 0
  {
    var rank := TextOf(cadet, "rank").GetOr("");
    FirstIndexOf(RankOptions, rank).GetOr(0)
  }

  /** The seed's numeric ranks are not among the options: the select box
      starts at the first one. */
  lemma NumericRankStartsAtFirst(rank: int)
    ensures RankIndex(map["rank" := Int(rank)]) == 0
  {
  }

  // ---------------------------------------------------------------------
  // add_cadet_to_db

  /** How adding a cadet ends. A duplicate user_id is raised by the store in
      the source; here it is a result. */
  datatype AddResult = UserNotFound | Added(cadetId: Id) | NotAdded(why: InsertResult)

  /** add_cadet_to_db: a cadet for the user with this email, with this rank
      and no flight; nothing when no user has the email. */
  function AddCadet(s: DbState, email: string, rank: string): (r: (DbState, AddResult))
    ensures r.1 == UserNotFound <==> GetUserByEmail(s, email).None?
    ensures !r.1.Added? ==> r.0 == s
    ensures r.1.Added? ==> r.1.cadetId == s.nextId
  {
    match GetUserByEmail(s, email)
    case None => (s, UserNotFound)
    case Some(user) =>
      var (s2, res) := Store.Insert(s, Cadets, CadetDoc(user.id, Str(rank), None));
      (s2, if res.Inserted? then Added(res.id) else NotAdded(res))
  }

  /** A cadet is created only for a user that has the email, and the new
      cadet points to that user, with the rank as chosen and no flight. */
  lemma AddCadetNeedsUser(s: DbState, email: string, rank: string)
    ensures AddCadet(s, email, rank).1 == UserNotFound <==> GetUserByEmail(s, email).None?
    ensures GetUserByEmail(s, email).None? ==> AddCadet(s, email, rank).0 == s
    ensures AddCadet(s, email, rank).1.Added? ==>
              var user := GetUserByEmail(s, email).value;
              && user in Tab(s, Users) && Matches(user, "email", Str(email))
              && Tab(AddCadet(s, email, rank).0, Cadets) ==
                   Tab(s, Cadets) + [Entry(AddCadet(s, email, rank).1.cadetId, CadetDoc(user.id, Str(rank), None))]
              && "flight_id" !in CadetDoc(user.id, Str(rank), None)
  {
  }

  /** With the indexes in place, adding the same user a second time is
      refused: a user has at most one cadet. */
  lemma AddCadetTwiceRefused(s: DbState, email: string, rank: string, rank2: string)
    requires Valid(s) && s.indexed
    requires AddCadet(s, email, rank).1.Added?
    ensures AddCadet(AddCadet(s, email, rank).0, email, rank2).1 == NotAdded(DuplicateKey)
  {
    var user := GetUserByEmail(s, email).value;
    var s1 := AddCadet(s, email, rank).0;
    InsertAppends(s, Cadets, CadetDoc(user.id, Str(rank), None));
    assert Tab(s1, Users) == Tab(s, Users);
    assert GetUserByEmail(s1, email) == GetUserByEmail(s, email);
    var t1 := Tab(s1, Cadets);
    var d2 := CadetDoc(user.id, Str(rank2), None);
    assert Collide(t1[|t1| - 1].doc, d2, UniqueFields(Cadets)) by {
      assert IndexKey(t1[|t1| - 1].doc, ["user_id"]) == [Ref(user.id)];
      assert IndexKey(d2, ["user_id"]) == [Ref(user.id)];
    }
  }

  /** add_cadet_to_db on the database. */
  method AddCadetToDb(db: Database, email: string, rank: string) returns (r: AddResult)
    requires db.Valid()
    modifies db
    ensures db.Valid()
    ensures (db.State(), r) == AddCadet(old(db.State()), email, rank)
  {
    var user := GetUserByEmail(db.State(), email);
    if user.None? {
      return UserNotFound;
    }
    var res := db.CreateCadet(user.value.id, rank, None);
    r := if res.Inserted? then Added(res.id) else NotAdded(res);
  }
}
