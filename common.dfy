/** Values shared by every part of the model: optional values, the values a
    MongoDB document holds, and the few Python string operations the pages
    use (str.strip, str.lower, `in` on strings, str() of a value). */
module Common {

  datatype Option<+T> = None | Some(value: T) {
    /** `x if x is not None else default` */
    function GetOr(default: T): T {
      match this
      case Some(v) => v
      case None => default
    }
  }

  /** An ObjectId. Fresh ones come from the store's counter. */
  type Id = nat

  /** A datetime: its position on the time line, which orders it, and its
      calendar day as "%Y-%m-%d" renders it. */
  datatype Moment = Moment(stamp: int, day: string)

  /** The values a document field can hold. */
  datatype Value =
    | Null
    | Str(s: string)
    | Int(i: int)
    | Ref(id: Id)
    | Time(m: Moment)
    | Strs(items: seq<string>)

  /** A document without its `_id`: field name to value. */
  type Doc = map<string, Value>

  /** `d.get(k)` */
  function Get(d: Doc, k: string): (r: Option<Value>)
    ensures r.Some? <==> k in d
    ensures r.Some? ==> r.value == d[k]
  {
    if k in d then Some(d[k]) else None
  }

  /** Python's truth value of a stored value. */
  predicate Truthy(v: Value) {
    match v
    case Null => false
    case Str(s) => s != ""
    case Int(i) => i != 0
    case Ref(_) => true
    case Time(_) => true
    case Strs(items) => items != []
  }

  /** A field read as text. The pages only ever apply string operations to
      fields the store writes as strings; any other kind reads as missing. */
  function TextOf(d: Doc, k: string): (r: Option<string>)
    ensures r.Some? <==> k in d && d[k].Str?
    ensures r.Some? ==> d[k] == Str(r.value)
  {
    if k in d && d[k].Str? then Some(d[k].s) else None
  }

  /** A field read as an ObjectId reference; any other kind reads as missing. */
  function RefOf(d: Doc, k: string): (r: Option<Id>)
    ensures r.Some? <==> k in d && d[k].Ref?
    ensures r.Some? ==> d[k] == Ref(r.value)
  {
    if k in d && d[k].Ref? then Some(d[k].id) else None
  }

  /** A field read as a datetime; any other kind reads as missing. */
  function TimeOf(d: Doc, k: string): (r: Option<Moment>)
    ensures r.Some? <==> k in d && d[k].Time?
    ensures r.Some? ==> d[k] == Time(r.value)
  {
    if k in d && d[k].Time? then Some(d[k].m) else None
  }

  // ---------------------------------------------------------------------
  // Strings

  /** The characters Python's str.isspace() accepts, which str.strip() removes. */
  predicate IsSpace(c: char) {
    || ('\t' <= c <= '\r')
    || ('\U{1c}' <= c <= ' ')
    || c == '\U{85}' || c == '\U{a0}' || c == '\U{1680}'
    || ('\U{2000}' <= c <= '\U{200a}')
    || c == '\U{2028}' || c == '\U{2029}' || c == '\U{202f}' || c == '\U{205f}' || c == '\U{3000}'
  }

  /** t occurs in s at offset i. */
  predicate InfixAt(s: string, t: string, i: nat) {
    i + |t| <= |s| && s[i..i + |t|] == t
  }

  /** str.lstrip() */
  function LStrip(s: string): (r: string)
    ensures |r| <= |s| && r == s[|s| - |r|..]
    ensures r == [] || !IsSpace(r[0])
    ensures forall k :: 0 <= k < |s| - |r| ==> IsSpace(s[k])
  {
    if s != [] && IsSpace(s[0]) then LStrip(s[1..]) else s
  }

  /** str.rstrip() */
  function RStrip(s: string): (r: string)
    ensures |r| <= |s| && r == s[..|r|]
    ensures r == [] || !IsSpace(r[|r| - 1])
    ensures forall k :: |r| <= k < |s| ==> IsSpace(s[k])
  {
    if s != [] && IsSpace(s[|s| - 1]) then RStrip(s[..|s| - 1]) else s
  }

  /** str.strip(): the longest infix that neither starts nor ends with white space. */
  function Strip(s: string): (r: string)
    ensures r == [] || (!IsSpace(r[0]) && !IsSpace(r[|r| - 1]))
    ensures r == [] <==> forall k :: 0 <= k < |s| ==> IsSpace(s[k])
  {
    RStrip(LStrip(s))
  }

  /** What strip keeps is one contiguous piece of the input. */
  lemma StripIsInfix(s: string)
    ensures exists i: nat :: InfixAt(s, Strip(s), i)
  {
    var l := LStrip(s);
    var r := RStrip(l);
    assert r == s[|s| - |l|..][..|r|];
    assert Strip(s) == r;
    var i: nat := |s| - |l|;
    assert InfixAt(s, Strip(s), i);
  }

  /** str.lower() on ASCII letters. */
  function LowerChar(c: char): (r: char)
    ensures 'A' <= c <= 'Z' ==> r as int == c as int + 32
    ensures !('A' <= c <= 'Z') ==> r == c
  {
    if 'A' <= c <= 'Z' then (c as int + 32) as char else c
  }

  /** str.lower() */
  function Lower(s: string): (r: string)
    ensures |r| == |s|
    ensures forall k :: 0 <= k < |s| ==> r[k] == LowerChar(s[k])
  {
    if s == [] then [] else [LowerChar(s[0])] + Lower(s[1..])
  }

  /** Lower-casing a character never turns it into white space or out of it. */
  lemma SpaceIgnoresCase(c: char)
    ensures IsSpace(LowerChar(c)) == IsSpace(c)
  {
  }

  lemma {:induction false} LStripLower(s: string)
    ensures LStrip(Lower(s)) == Lower(LStrip(s))
    decreases |s|
  {
    if s != [] {
      SpaceIgnoresCase(s[0]);
      assert Lower(s)[1..] == Lower(s[1..]);
      LStripLower(s[1..]);
    }
  }

  lemma {:induction false} RStripLower(s: string)
    ensures RStrip(Lower(s)) == Lower(RStrip(s))
    decreases |s|
  {
    if s != [] {
      SpaceIgnoresCase(s[|s| - 1]);
      assert Lower(s)[..|s| - 1] == Lower(s[..|s| - 1]);
      RStripLower(s[..|s| - 1]);
    }
  }

  /** Stripping and lower-casing commute. */
  lemma StripLower(s: string)
    ensures Strip(Lower(s)) == Lower(Strip(s))
  {
    LStripLower(s);
    RStripLower(LStrip(s));
  }

  /** A string without white space at either end is its own strip. */
  lemma StripKeeps(s: string)
    requires s == [] || (!IsSpace(s[0]) && !IsSpace(s[|s| - 1]))
    ensures Strip(s) == s
  {
    assert LStrip(s) == s;
    assert RStrip(s) == s;
  }

  /** Lower-casing leaves a string without capitals as it is. */
  lemma LowerKeeps(s: string)
    requires forall k :: 0 <= k < |s| ==> !('A' <= s[k] <= 'Z')
    ensures Lower(s) == s
  {
  }

  /** The first position of x in xs. */
  function FirstIndexOf<T(==)>(xs: seq<T>, x: T): (r: Option<nat>)
    ensures r.None? <==> x !in xs
    ensures r.Some? ==> r.value < |xs| && xs[r.value] == x && forall j :: 0 <= j < r.value ==> xs[j] != x
  {
    if xs == [] then None
    else if xs[0] == x then Some(0)
    else match FirstIndexOf(xs[1..], x)
      case None => None
      case Some(k) => Some(k + 1)
  }

  /** The last position of x in xs. */
  function LastIndexOf<T(==)>(xs: seq<T>, x: T): (r: Option<nat>)
    ensures r.None? <==> x !in xs
    ensures r.Some? ==> r.value < |xs| && xs[r.value] == x && forall j :: r.value < j < |xs| ==> xs[j] != x
  {
    if xs == [] then None
    else if xs[|xs| - 1] == x then Some(|xs| - 1)
    else
      var r := LastIndexOf(xs[..|xs| - 1], x);
      assert xs == xs[..|xs| - 1] + [xs[|xs| - 1]];
      r
  }

  /** `needle in hay` on strings. */
  predicate Contains(hay: string, needle: string)
    decreases |hay|
  {
    needle <= hay || (hay != [] && Contains(hay[1..], needle))
  }

  /** `needle in hay` holds exactly when needle occurs at some position of hay. */
  lemma {:induction false} ContainsIsInfix(hay: string, needle: string)
    ensures Contains(hay, needle) <==> exists i: nat :: InfixAt(hay, needle, i)
    decreases |hay|
  {
    if needle <= hay {
      assert InfixAt(hay, needle, 0);
    } else if hay == [] {
    } else {
      ContainsIsInfix(hay[1..], needle);
      if exists i: nat :: InfixAt(hay, needle, i) {
        var i: nat :| InfixAt(hay, needle, i);
        assert i != 0;
        assert InfixAt(hay[1..], needle, i - 1);
      }
      if exists i: nat :: InfixAt(hay[1..], needle, i) {
        var i: nat :| InfixAt(hay[1..], needle, i);
        assert InfixAt(hay, needle, i + 1);
      }
    }
  }

  /** The empty string is in every string. */
  lemma EmptyContained(hay: string)
    ensures Contains(hay, "")
  {
  }

  function DigitChar(d: nat): (c: char)
    requires d < 10
    ensures '0' <= c <= '9'
  {
    ['0', '1', '2', '3', '4', '5', '6', '7', '8', '9'][d]
  }

  /** str(n) for a natural number. */
  function Decimal(n: nat): (r: string)
    ensures r != []
    ensures forall k :: 0 <= k < |r| ==> '0' <= r[k] <= '9'
  {
    if n < 10 then [DigitChar(n)] else Decimal(n / 10) + [DigitChar(n % 10)]
  }

  /** str(i) for an integer. */
  function IntText(i: int): string {
    if i < 0 then "-" + Decimal(-i) else Decimal(i)
  }

  function HexChar(d: nat): (c: char)
    requires d < 16
    ensures '0' <= c <= '9' || 'a' <= c <= 'f'
  {
    "0123456789abcdef"[d]
  }

  /** The last `width` hexadecimal digits of n, zero-padded. */
  function Hex(n: nat, width: nat): (r: string)
    ensures |r| == width
    ensures forall k :: 0 <= k < |r| ==> '0' <= r[k] <= '9' || 'a' <= r[k] <= 'f'
  {
    if width == 0 then [] else Hex(n / 16, width - 1) + [HexChar(n % 16)]
  }

  /** str(ObjectId): 24 hexadecimal digits. */
  function IdText(id: Id): (r: string)
    ensures |r| == 24
    ensures ' ' !in r
  {
    Hex(id, 24)
  }

  /** The repr of a list of strings (without escaping). */
  function ListText(items: seq<string>): string {
    "[" + ListItems(items) + "]"
  }

  function ListItems(items: seq<string>): string {
    if items == [] then ""
    else if |items| == 1 then "'" + items[0] + "'"
    else "'" + items[0] + "', " + ListItems(items[1..])
  }

  /** str(v), as an f-string renders a stored value. */
  function Show(v: Value): string {
    match v
    case Null => "None"
    case Str(s) => s
    case Int(i) => IntText(i)
    case Ref(id) => IdText(id)
    case Time(m) => m.day
    case Strs(items) => ListText(items)
  }

  /** `f"{d.get(k, '')}"` */
  function FieldText(d: Doc, k: string): (r: string)
    ensures k !in d ==> r == ""
    ensures k in d ==> r == Show(d[k])
  {
    if k in d then Show(d[k]) else ""
  }

  /** str(x) for a string that may be None. */
  function PyText(o: Option<string>): (r: string)
    ensures o.Some? ==> r == o.value
    ensures o.None? ==> r == "None"
  {
    match o
    case Some(s) => s
    case None => "None"
  }

  // ---------------------------------------------------------------------
  // Dicts filled in order

  /** A dict filled in order: key i, when there is one, is set to value i. */
  function LastWins<K, V>(keys: seq<Option<K>>, vals: seq<V>): map<K, V>
    requires |keys| == |vals|
  {
    if keys == [] then map[]
    else
      var n := |keys| - 1;
      var m := LastWins(keys[..n], vals[..n]);
      if keys[n].Some? then m[keys[n].value := vals[n]] else m
  }

  /** A key is in the dict iff some position carries it. */
  lemma {:induction false} LastWinsKeys<K, V>(keys: seq<Option<K>>, vals: seq<V>, k: K)
    requires |keys| == |vals|
    ensures k in LastWins(keys, vals) <==> exists i :: 0 <= i < |keys| && keys[i] == Some(k)
  {
    if keys != [] {
      var n := |keys| - 1;
      LastWinsKeys(keys[..n], vals[..n], k);
      if k in LastWins(keys, vals) && keys[n] != Some(k) {
        var i :| 0 <= i < n && keys[..n][i] == Some(k);
        assert keys[i] == Some(k);
      }
      if exists i :: 0 <= i < n && keys[i] == Some(k) {
        var i :| 0 <= i < n && keys[i] == Some(k);
        assert keys[..n][i] == Some(k);
      }
    }
  }

  /** A key holds the value of the last position that carries it. */
  lemma {:induction false} LastWinsValue<K, V>(keys: seq<Option<K>>, vals: seq<V>, k: K, i: int)
    requires |keys| == |vals| && 0 <= i < |keys| && keys[i] == Some(k)
    requires forall j :: i < j < |keys| ==> keys[j] != Some(k)
    ensures k in LastWins(keys, vals) && LastWins(keys, vals)[k] == vals[i]
  {
    var n := |keys| - 1;
    if i < n {
      assert keys[..n][i] == Some(k);
      assert forall j :: i < j < n ==> keys[..n][j] != Some(k);
      LastWinsValue(keys[..n], vals[..n], k, i);
    }
  }

  /** Every value in the dict is the value of some position. */
  lemma {:induction false} LastWinsFrom<K, V>(keys: seq<Option<K>>, vals: seq<V>, k: K)
    requires |keys| == |vals| && k in LastWins(keys, vals)
    ensures exists i :: 0 <= i < |keys| && LastWins(keys, vals)[k] == vals[i]
  {
    var n := |keys| - 1;
    if keys[n] != Some(k) {
      LastWinsFrom(keys[..n], vals[..n], k);
      var i :| 0 <= i < n && LastWins(keys[..n], vals[..n])[k] == vals[..n][i];
      assert LastWins(keys, vals)[k] == vals[i];
    } else {
      assert LastWins(keys, vals)[k] == vals[n];
    }
  }

  /** One more position sets its key, if it has one, over the dict so far. */
  lemma LastWinsStep<K, V>(keys: seq<Option<K>>, vals: seq<V>, i: int)
    requires |keys| == |vals| && 0 <= i < |keys|
    ensures LastWins(keys[..i + 1], vals[..i + 1]) ==
              if keys[i].Some? then LastWins(keys[..i], vals[..i])[keys[i].value := vals[i]]
              else LastWins(keys[..i], vals[..i])
  {
    assert keys[..i + 1][..i] == keys[..i] && vals[..i + 1][..i] == vals[..i];
  }
}
