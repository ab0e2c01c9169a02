/** The form builder's settings plumbing in static/builder.js: `getByPath` and
    `setByPath`, which read and write dotted setting keys such as
    "display.bg_style" inside the schema, and the appearance button, which
    cycles the theme's "appearance" through light, dark and auto. */
module Builder {
  import opened Results
  import opened Text
  import opened JsonValues

  // ---------------------------------------------------------------------
  // getByPath / setByPath

  /** `cur[k]` of a JSON value, None standing for `undefined`. Only objects
      have properties in this model. */
  function Lookup(cur: Json, k: string): Option<Json> {
    if cur.Obj? then Get(cur.entries, k) else None
  }

  /** The loop of `getByPath`: each step gives up with `undefined` on a null
      or undefined value, else looks the next key up. */
  function GetPath(cur: Option<Json>, keys: seq<string>): (r: Option<Json>)
    ensures keys == [] ==> r == cur
    decreases |keys|
  {
    if keys == [] then cur
    else if cur.None? || cur.value.Null? then None
    else GetPath(Lookup(cur.value, keys[0]), keys[1..])
  }

  /** `getByPath(obj, path)`. */
  function GetByPath(obj: Option<Json>, path: string): Option<Json> {
    GetPath(obj, Split(path, '.'))
  }

  /** The loop of `setByPath` on an object: every intermediate that is not an
      object (missing, null, text, number, boolean) is replaced by `{}`, the
      last key is assigned. A path running through an array (which JavaScript
      would index by property name) lies outside the model: None. */
  function SetPath(o: Object, keys: seq<string>, v: Json): (r: Option<Object>)
    requires keys != []
    ensures r.Some? ==> forall k :: k != keys[0] ==> Get(r.value, k) == Get(o, k)
    decreases |keys|
  {
    if |keys| == 1 then Some(Put(o, keys[0], v))
    else
      var child := Get(o, keys[0]);
      if child.Some? && child.value.Arr? then None
      else
        var inner := if child.Some? && child.value.Obj? then child.value.entries else [];
        var sub := SetPath(inner, keys[1..], v);
        if sub.None? then None else Some(Put(o, keys[0], Obj(sub.value)))
  }

  /** `setByPath(obj, path, val)` on an object. */
  function SetByPath(o: Object, path: string, v: Json): Option<Object> {
    SetPath(o, Split(path, '.'), v)
  }

  /** After a write, reading the same path gives the value written. */
  lemma {:induction false} GetAfterSet(o: Object, keys: seq<string>, v: Json)
    requires keys != [] && SetPath(o, keys, v).Some?
    ensures GetPath(Some(Obj(SetPath(o, keys, v).value)), keys) == Some(v)
    decreases |keys|
  {
    var r := SetPath(o, keys, v).value;
    if |keys| == 1 {
      assert GetPath(Some(Obj(r)), keys) == GetPath(Lookup(Obj(r), keys[0]), keys[1..]);
    } else {
      var child := Get(o, keys[0]);
      var inner := if child.Some? && child.value.Obj? then child.value.entries else [];
      GetAfterSet(inner, keys[1..], v);
      assert Lookup(Obj(r), keys[0]) == Some(Obj(SetPath(inner, keys[1..], v).value));
    }
  }

  /** A path that leaves the written one at some key, having run through
      objects up to there. */
  predicate Diverges(o: Object, q: seq<string>, keys: seq<string>)
    decreases |q|
  {
    q != [] && keys != [] &&
    (q[0] != keys[0] ||
      (|q| > 1 && |keys| > 1 && Get(o, q[0]).Some? && Get(o, q[0]).value.Obj? &&
        Diverges(Get(o, q[0]).value.entries, q[1..], keys[1..])))
  }

  /** A write leaves every path that turns off it before its end unchanged. */
  lemma {:induction false} OffPathUnchanged(o: Object, keys: seq<string>, v: Json, q: seq<string>)
    requires keys != [] && SetPath(o, keys, v).Some?
    requires Diverges(o, q, keys)
    ensures GetPath(Some(Obj(SetPath(o, keys, v).value)), q) == GetPath(Some(Obj(o)), q)
    decreases |q|
  {
    var r := SetPath(o, keys, v).value;
    if q[0] != keys[0] {
      assert Lookup(Obj(r), q[0]) == Lookup(Obj(o), q[0]);
    } else {
      var inner := Get(o, keys[0]).value.entries;
      OffPathUnchanged(inner, keys[1..], v, q[1..]);
      assert Lookup(Obj(r), q[0]) == Some(Obj(SetPath(inner, keys[1..], v).value));
    }
  }

  /** A fresh chain of objects holds nothing but the written path. */
  lemma {:induction false} FreshChain(keys: seq<string>, v: Json)
    requires keys != [] && SetPath([], keys, v).Some?
    ensures Keys(SetPath([], keys, v).value) == [keys[0]]
    decreases |keys|
  {
    if |keys| > 1 {
      FreshChain(keys[1..], v);
    }
  }

  /** A value on the path that is not an object is thrown away and replaced
      by a fresh object holding only the rest of the path. */
  lemma ReplacesNonObject(o: Object, keys: seq<string>, v: Json)
    requires |keys| >= 2
    requires Get(o, keys[0]).None? || !(Get(o, keys[0]).value.Obj? || Get(o, keys[0]).value.Arr?)
    ensures SetPath([], keys[1..], v).Some?
    ensures SetPath(o, keys, v) == Some(Put(o, keys[0], Obj(SetPath([], keys[1..], v).value)))
  {
    NoArrayNoFail([], keys[1..], v);
  }

  /** A path through no array is always written. */
  lemma {:induction false} NoArrayNoFail(o: Object, keys: seq<string>, v: Json)
    requires keys != [] && o == []
    ensures SetPath(o, keys, v).Some?
    decreases |keys|
  {
    if |keys| > 1 {
      NoArrayNoFail([], keys[1..], v);
    }
  }

  // ---------------------------------------------------------------------
  // The appearance button

  /** The appearance the button starts from: `schema.theme.appearance` when
      the theme and that value are true, else "auto". */
  function CurrentAppearance(schema: Object): (r: Json)
    ensures JsTruthy(r)
  {
    var theme := Get(schema, "theme");
    if theme.None? || !JsTruthy(theme.value) then Str("auto")
    else
      var a := Lookup(theme.value, "appearance");
      if a.Some? && JsTruthy(a.value) then a.value else Str("auto")
  }

  /** light → dark → auto → light; anything else → light. */
  function NextAppearance(cur: Json): (r: string)
    ensures r == "light" || r == "dark" || r == "auto"
    ensures cur != Str("light") && cur != Str("dark") ==> r == "light"
  {
    if cur == Str("light") then "dark"
    else if cur == Str("dark") then "auto"
    else "light"
  }

  /** Three presses lead back to each of the three modes. */
  lemma AppearanceCycle(m: string)
    requires m == "light" || m == "dark" || m == "auto"
    ensures NextAppearance(Str(NextAppearance(Str(NextAppearance(Str(m)))))) == m
  {
  }

  /** The click handler: `schema.theme.appearance = next`. Writing to a
      missing or null theme raises; writing a property of a text, number or
      boolean theme is silently lost (the handler runs in sloppy mode), and
      one written on an array does not survive serialisation. */
  function ThemeButton(schema: Object): (r: Result<Object>)
    ensures r.Err? <==> Get(schema, "theme").None? || Get(schema, "theme").value.Null?
    ensures r.Ok? && Get(schema, "theme").value.Obj? ==>
      Get(r.value, "theme") == Some(Obj(Put(Get(schema, "theme").value.entries, "appearance", Str(NextAppearance(CurrentAppearance(schema))))))
    ensures r.Ok? && !Get(schema, "theme").value.Obj? ==> r.value == schema
    ensures r.Ok? ==> forall k :: k != "theme" ==> Get(r.value, k) == Get(schema, k)
  {
    var theme := Get(schema, "theme");
    if theme.None? || theme.value.Null? then Err(Crash)
    else if theme.value.Obj? then
      Ok(Put(schema, "theme", Obj(Put(theme.value.entries, "appearance", Str(NextAppearance(CurrentAppearance(schema)))))))
    else Ok(schema)
  }

  /** One press on a theme object whose appearance is one of the three modes. */
  lemma Press(schema: Object, t: Object, m: string)
    requires m == "light" || m == "dark" || m == "auto"
    requires Get(schema, "theme") == Some(Obj(t))
    requires Get(t, "appearance") == Some(Str(m))
    ensures ThemeButton(schema) == Ok(Put(schema, "theme", Obj(Put(t, "appearance", Str(NextAppearance(Str(m)))))))
  {
    assert CurrentAppearance(schema) == Str(m);
  }

  /** Pressing three times from light, dark or auto restores the schema
      exactly, as far as the button's own writes go: the colours `sync()`
      copies in afterwards are not part of this model. */
  lemma ThreePresses(schema: Object, m: string)
    requires m == "light" || m == "dark" || m == "auto"
    requires Get(schema, "theme").Some? && Get(schema, "theme").value.Obj?
    requires Get(Get(schema, "theme").value.entries, "appearance") == Some(Str(m))
    ensures ThemeButton(schema).Ok? && ThemeButton(ThemeButton(schema).value).Ok?
    ensures ThemeButton(ThemeButton(ThemeButton(schema).value).value) == Ok(schema)
  {
    var t := Get(schema, "theme").value.entries;
    var m1 := NextAppearance(Str(m));
    var m2 := NextAppearance(Str(m1));
    var t1 := Put(t, "appearance", Str(m1));
    var s1 := Put(schema, "theme", Obj(t1));
    Press(schema, t, m);
    var t2 := Put(t1, "appearance", Str(m2));
    var s2 := Put(s1, "theme", Obj(t2));
    Press(s1, t1, m1);
    var t3 := Put(t2, "appearance", Str(m));
    AppearanceCycle(m);
    Press(s2, t2, m2);
    PutPut(t, "appearance", Str(m1), Str(m2));
    PutPut(t, "appearance", Str(m2), Str(m));
    PutPresent(t, "appearance", Str(m));
    assert t3 == t;
    PutPut(schema, "theme", Obj(t1), Obj(t2));
    PutPut(schema, "theme", Obj(t2), Obj(t3));
    PutPresent(schema, "theme", Obj(t));
  }
}
