/** JSON values as both the Python server and the JavaScript console see
    them, with objects kept as ordered key/value lists (Python dictionaries
    and JavaScript objects both remember insertion order). */
module JsonValues {
  import opened Results
  import opened Text

  datatype Json =
    | Null
    | Bool(b: bool)
    | Num(n: int)
    | Str(s: string)
    | Arr(items: seq<Json>)
    | Obj(entries: seq<(string, Json)>)

  /** The entries of a JSON object, in insertion order. */
  type Object = seq<(string, Json)>

  /** An ordered string-keyed collection: a Python dict or JavaScript object with values of type V. */
  type Entries<V> = seq<(string, V)>

  function Keys<V>(o: Entries<V>): (ks: seq<string>)
    ensures |ks| == |o|
    ensures forall i :: 0 <= i < |o| ==> ks[i] == o[i].0
  {
    if o == [] then [] else [o[0].0] + Keys(o[1..])
  }

  /** `d.get(k)` in Python, `d[k]` in JavaScript: the value under the first entry with key `k`. */
  function Get<V>(o: Entries<V>, k: string): Option<V> {
    if o == [] then None
    else if o[0].0 == k then Some(o[0].1)
    else Get(o[1..], k)
  }

  /** A key has a value exactly when some entry carries it. */
  lemma {:induction false} GetKeys<V>(o: Entries<V>, k: string)
    ensures Get(o, k).Some? <==> k in Keys(o)
  {
    if o != [] {
      GetKeys(o[1..], k);
      assert Keys(o) == [o[0].0] + Keys(o[1..]);
    }
  }

  /** The value under `k`, or JSON null when there is none (Python's `d.get(k)` returning None). */
  function GetOrNull(o: Object, k: string): Json {
    Get(o, k).GetOr(Null)
  }

  /** `d[k] = v`: replaces the value in place when `k` is present, appends otherwise. */
  function Put<V>(o: Entries<V>, k: string, v: V): (r: Entries<V>)
    ensures Get(r, k) == Some(v)
    ensures forall k' :: k' != k ==> Get(r, k') == Get(o, k')
  {
    if o == [] then [(k, v)]
    else if o[0].0 == k then [(k, v)] + o[1..]
    else [o[0]] + Put(o[1..], k, v)
  }

  /** Assigning to a present key keeps the key order; a new key goes last. */
  lemma {:induction false} PutKeys<V>(o: Entries<V>, k: string, v: V)
    ensures Keys(Put(o, k, v)) == if k in Keys(o) then Keys(o) else Keys(o) + [k]
  {
    if o != [] {
      PutKeys(o[1..], k, v);
      if o[0].0 != k {
        assert Keys(Put(o, k, v)) == [o[0].0] + Keys(Put(o[1..], k, v));
        assert Keys(o) == [o[0].0] + Keys(o[1..]);
      } else {
        assert Keys(Put(o, k, v)) == [k] + Keys(o[1..]);
      }
    }
  }

  /** The keys of `ks` other than `k`, in order. */
  function KeysWithout(ks: seq<string>, k: string): (r: seq<string>)
    ensures k !in r
    ensures forall x :: x in r <==> x in ks && x != k
  {
    if ks == [] then [] else (if ks[0] == k then [] else [ks[0]]) + KeysWithout(ks[1..], k)
  }

  /** `d.pop(k, None)` / `delete d[k]`: every entry with key `k` goes, the rest keep their order. */
  function Remove<V>(o: Entries<V>, k: string): (r: Entries<V>)
    ensures Get(r, k) == None
    ensures forall k' :: k' != k ==> Get(r, k') == Get(o, k')
    ensures Keys(r) == KeysWithout(Keys(o), k)
    ensures |r| <= |o|
  {
    if o == [] then []
    else if o[0].0 == k then Remove(o[1..], k)
    else [o[0]] + Remove(o[1..], k)
  }

  /** Assigning the value a key already holds changes nothing. */
  lemma {:induction false} PutPresent<V>(o: Entries<V>, k: string, v: V)
    requires Get(o, k) == Some(v)
    ensures Put(o, k, v) == o
  {
    if o[0].0 != k {
      PutPresent(o[1..], k, v);
    }
  }

  /** A second assignment to the same key overwrites the first in place. */
  lemma {:induction false} PutPut<V>(o: Entries<V>, k: string, a: V, b: V)
    ensures Put(Put(o, k, a), k, b) == Put(o, k, b)
  {
    if o != [] && o[0].0 != k {
      PutPut(o[1..], k, a, b);
    }
  }

  /** Removing a key that is not there changes nothing. */
  lemma {:induction false} RemoveAbsent<V>(o: Entries<V>, k: string)
    requires Get(o, k) == None
    ensures Remove(o, k) == o
  {
    if o != [] {
      RemoveAbsent(o[1..], k);
    }
  }

  /** Python's truth value of a decoded JSON value (`if v:` / `v or default`). */
  predicate PyTruthy(v: Json) {
    match v
    case Null => false
    case Bool(b) => b
    case Num(n) => n != 0
    case Str(s) => s != ""
    case Arr(items) => items != []
    case Obj(entries) => entries != []
  }

  /** JavaScript's truth value of a parsed JSON value: arrays and objects are always true. */
  predicate JsTruthy(v: Json) {
    match v
    case Null => false
    case Bool(b) => b
    case Num(n) => n != 0
    case Str(s) => s != ""
    case Arr(_) => true
    case Obj(_) => true
  }

  /** Python's `str(v)`: a string is itself, anything else is its `repr`. */
  function PyStr(v: Json): (r: string)
    ensures v.Str? ==> r == v.s
    ensures PyTruthy(v) ==> r != ""
  {
    if v.Str? then v.s else PyRepr(v)
  }

  /** Python's `repr(v)` of a decoded JSON value. */
  function PyRepr(v: Json): (r: string)
    ensures r != ""
    decreases v, 1
  {
    match v
    case Null => "None"
    case Bool(b) => if b then "True" else "False"
    case Num(n) => IntToString(n)
    case Str(s) => "'" + s + "'"
    case Arr(items) => "[" + PyReprItems(items) + "]"
    case Obj(entries) => "{" + PyReprEntries(entries) + "}"
  }

  function PyReprItems(items: seq<Json>): string
    decreases items, 0
  {
    if items == [] then ""
    else if |items| == 1 then PyRepr(items[0])
    else PyRepr(items[0]) + ", " + PyReprItems(items[1..])
  }

  function PyReprEntries(entries: seq<(string, Json)>): string
    decreases entries, 0
  {
    if entries == [] then ""
    else
      var (k, x) := entries[0];
      assert x < entries[0];
      assert entries[0] in entries;
      var e := "'" + k + "': " + PyRepr(x);
      if |entries| == 1 then e else e + ", " + PyReprEntries(entries[1..])
  }

  /** JavaScript's `String(v)` of a parsed JSON value. */
  function JsString(v: Json): (r: string)
    ensures v.Str? ==> r == v.s
    decreases v, 1
  {
    match v
    case Null => "null"
    case Bool(b) => if b then "true" else "false"
    case Num(n) => IntToString(n)
    case Str(s) => s
    case Arr(items) => JsJoinItems(items)
    case Obj(_) => "[object Object]"
  }

  /** `Array.prototype.join(",")`, which writes null elements as empty strings. */
  function JsJoinItems(items: seq<Json>): string
    decreases items, 0
  {
    if items == [] then ""
    else
      var e := if items[0].Null? then "" else JsString(items[0]);
      if |items| == 1 then e else e + "," + JsJoinItems(items[1..])
  }

  /** Python's `x or {}` followed by a dictionary method: a false value stands
      for the empty dictionary, a true value that is not a dictionary raises. */
  function OrEmptyObject(v: Json): (r: Result<Object>)
    ensures !PyTruthy(v) ==> r == Ok([])
    ensures v.Obj? ==> r == Ok(v.entries)
    ensures r.Err? <==> PyTruthy(v) && !v.Obj?
  {
    if v.Obj? then Ok(v.entries)
    else if !PyTruthy(v) then Ok([])
    else Err(Crash)
  }

  /** Python's `a or b`: the first operand when it is true, else the second. */
  function PyOr(a: Json, b: Json): (r: Json)
    ensures PyTruthy(r) <==> PyTruthy(a) || PyTruthy(b)
    ensures r == a || r == b
  {
    if PyTruthy(a) then a else b
  }

  /** Python's `(x or default)` followed by a string method such as `.strip()`:
      a false value gives the default, a true value that is not a string raises. */
  function StrOr(v: Json, default: string): (r: Result<string>)
    ensures !PyTruthy(v) ==> r == Ok(default)
    ensures v.Str? && v.s != "" ==> r == Ok(v.s)
    ensures r.Err? <==> PyTruthy(v) && !v.Str?
  {
    if !PyTruthy(v) then Ok(default)
    else if v.Str? then Ok(v.s)
    else Err(Crash)
  }

  /** Python's `int(v)` of a decoded JSON value. */
  function PyInt(v: Json): (r: Result<int>)
    ensures v.Num? ==> r == Ok(v.n)
    ensures v.Str? ==> (r.Ok? <==> ParseInt(v.s).Some?)
    ensures v.Arr? || v.Obj? || v.Null? ==> r.Err?
  {
    match v
    case Num(n) => Ok(n)
    case Bool(b) => Ok(if b then 1 else 0)
    case Str(s) => if ParseInt(s).Some? then Ok(ParseInt(s).value) else Err(Crash)
    case _ => Err(Crash)
  }

  /** How the handlers read `form_defs.schema_json`: a decoded object is used
      as is, an empty value stands for `{}`, a stored text is handed to
      `json.loads` (here the parameter `parse`, `None` when it raises) and
      must decode to an object, and anything else raises. */
  function StoredObject(v: Json, parse: string -> Option<Json>): (r: Result<Object>)
    ensures v.Obj? ==> r == Ok(v.entries)
    ensures !PyTruthy(v) ==> r == Ok([])
    ensures PyTruthy(v) && v.Str? ==>
      r == if parse(v.s).Some? && parse(v.s).value.Obj? then Ok(parse(v.s).value.entries) else Err(Crash)
    ensures PyTruthy(v) && !v.Obj? && !v.Str? ==> r == Err(Crash)
  {
    if v.Obj? then Ok(v.entries)
    else if !PyTruthy(v) then Ok([])
    else if v.Str? then
      match parse(v.s)
      case Some(Obj(e)) => Ok(e)
      case _ => Err(Crash)
    else Err(Crash)
  }

  /** Wraps a list of strings as a JSON array of strings. */
  function StrArr(xs: seq<string>): (r: Json)
    ensures r.Arr? && |r.items| == |xs|
    ensures forall i :: 0 <= i < |xs| ==> r.items[i] == Str(xs[i])
  {
    Arr(seq(|xs|, i requires 0 <= i < |xs| => Str(xs[i])))
  }
}
