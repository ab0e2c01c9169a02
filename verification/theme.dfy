/** A form's colour theme as app.py keeps it inside the form's schema:
    `_read_theme`, which every page uses to colour itself, and the schema
    edit of `api_save_theme_bg`, which stores the admin's choice. */
module Theme {
  import opened Results
  import opened Text
  import opened JsonValues

  /** The colours used when a schema names none. */
  const DefaultLight := "#2563eb"
  const DefaultDark := "#0ea5e9"

  /** The three appearance modes; anything else falls back to "auto". */
  predicate IsMode(s: string) { s == "light" || s == "dark" || s == "auto" }

  function NormalMode(s: string): (r: string)
    ensures IsMode(r)
    ensures IsMode(s) ==> r == s
    ensures !IsMode(s) ==> r == "auto"
  {
    if IsMode(s) then s else "auto"
  }

  /** What `_read_theme` returns. */
  datatype Colors = Colors(light: string, dark: string, mode: string)

  /** A schema's theme object: `schema.get("theme")` when it is a dictionary, else `{}`. */
  function ThemeOf(schema: Object): Object {
    var t := GetOrNull(schema, "theme");
    if t.Obj? then t.entries else []
  }

  /** `(v or default).strip()` for a default that has no surrounding white
      space (stripping it again would change nothing): a true value that is
      not a string raises. */
  function StripOr(v: Json, default: string): (r: Result<string>)
    requires Stripped(default)
    ensures r.Ok? ==> Stripped(r.value)
    ensures r.Err? <==> PyTruthy(v) && !v.Str?
    ensures !PyTruthy(v) ==> r == Ok(default)
  {
    if !PyTruthy(v) then Ok(default)
    else if v.Str? then Ok(PyStrip(v.s))
    else Err(Crash)
  }

  /** `StripOr` is `(v or default).strip()`. */
  lemma StripOrIsStrip(v: Json, default: string)
    requires Stripped(default)
    ensures StrOr(v, default).Ok? <==> StripOr(v, default).Ok?
    ensures StrOr(v, default).Ok? ==> StripOr(v, default).value == PyStrip(StrOr(v, default).value)
  {
    if !PyTruthy(v) {
      TrimUnspaced(default, Python);
    }
  }

  /** `(v or "auto").lower()`, kept only when it is one of the three modes. */
  function ModeOf(v: Json): (r: Result<string>)
    ensures r.Ok? ==> IsMode(r.value)
    ensures r.Err? <==> PyTruthy(v) && !v.Str?
    ensures !PyTruthy(v) ==> r == Ok("auto")
    ensures v.Str? && v.s != "" && IsMode(Lower(v.s)) ==> r == Ok(Lower(v.s))
    ensures v.Str? && v.s != "" && !IsMode(Lower(v.s)) ==> r == Ok("auto")
  {
    if !PyTruthy(v) then Ok("auto")
    else if v.Str? then Ok(NormalMode(Lower(v.s)))
    else Err(Crash)
  }

  /** The light colour: "brand_light", else the single brand colour, else the default. */
  function LightOf(theme: Object, single: string): (r: Result<string>)
    requires Stripped(single)
    ensures r.Ok? ==> Stripped(r.value)
    ensures var v := GetOrNull(theme, "brand_light");
      && (PyTruthy(v) && v.Str? ==> r == Ok(PyStrip(v.s)))
      && (PyTruthy(v) && !v.Str? ==> r == Err(Crash))
      && (!PyTruthy(v) ==> r == Ok(if single != "" then single else DefaultLight))
  {
    TrimUnspaced(single, Python);
    StripOr(PyOr(GetOrNull(theme, "brand_light"), Str(single)), DefaultLight)
  }

  /** The dark colour: "brand_dark", else the single brand colour, else the
      light colour, else its own default. */
  function DarkOf(theme: Object, single: string, light: string): (r: Result<string>)
    requires Stripped(single) && Stripped(light)
    ensures r.Ok? ==> Stripped(r.value)
    ensures var v := GetOrNull(theme, "brand_dark");
      && (PyTruthy(v) && v.Str? ==> r == Ok(PyStrip(v.s)))
      && (PyTruthy(v) && !v.Str? ==> r == Err(Crash))
      && (!PyTruthy(v) ==> r == Ok(if single != "" then single else if light != "" then light else DefaultDark))
  {
    StripOrOr(single, light, DefaultDark);
    StripOr(PyOr(GetOrNull(theme, "brand_dark"), PyOr(Str(single), Str(light))), DefaultDark)
  }

  /** `(a or b or d).strip()` for texts that strip leaves alone. */
  lemma StripOrOr(a: string, b: string, d: string)
    requires Stripped(a) && Stripped(b) && Stripped(d)
    ensures StripOr(PyOr(Str(a), Str(b)), d) == Ok(if a != "" then a else if b != "" then b else d)
  {
    TrimUnspaced(a, Python);
    TrimUnspaced(b, Python);
  }

  /** The mode: the first of "mode", "theme_mode" and "appearance". */
  function ModeIn(theme: Object): (r: Result<string>)
    ensures r.Ok? ==> IsMode(r.value)
  {
    ModeOf(PyOr(GetOrNull(theme, "mode"), PyOr(GetOrNull(theme, "theme_mode"), GetOrNull(theme, "appearance"))))
  }

  /** `_read_theme`: the light brand colour falls back on "brand" and then the
      default; the dark one on "brand", then the light colour, then its own
      default; the mode is the first of "mode", "theme_mode" and
      "appearance", lower-cased, and "auto" unless it is one of the three.
      A true value that is not text raises. */
  function ReadTheme(schema: Object): (r: Result<Colors>)
    ensures r.Ok? ==> IsMode(r.value.mode)
    ensures r.Ok? ==> Stripped(r.value.light) && Stripped(r.value.dark)
  {
    ColorsOf(ThemeOf(schema))
  }

  /** `_read_theme` once the theme object is found. */
  function ColorsOf(theme: Object): (r: Result<Colors>)
    ensures r.Ok? ==> IsMode(r.value.mode)
    ensures r.Ok? ==> Stripped(r.value.light) && Stripped(r.value.dark)
  {
    var single := StripOr(GetOrNull(theme, "brand"), "");
    if single.Err? then Err(Crash) else
    var light := LightOf(theme, single.value);
    if light.Err? then Err(Crash) else
    var dark := DarkOf(theme, single.value, light.value);
    if dark.Err? then Err(Crash) else
    var mode := ModeIn(theme);
    if mode.Err? then Err(Crash) else
    Ok(Colors(light.value, dark.value, mode.value))
  }

  /** The first true one of "mode", "theme_mode" and "appearance" decides
      the mode: lower-cased when it then names one of the three, "auto"
      otherwise. */
  lemma ReadThemeMode(schema: Object, m: string)
    requires var t := ThemeOf(schema);
      PyOr(GetOrNull(t, "mode"), PyOr(GetOrNull(t, "theme_mode"), GetOrNull(t, "appearance"))) == Str(m)
    requires m != "" && ReadTheme(schema).Ok?
    ensures ReadTheme(schema).value.mode == if IsMode(Lower(m)) then Lower(m) else "auto"
  {
  }

  /** A stored mode such as "Purple" reads as "auto", while "DARK" reads as "dark". */
  lemma UnknownModeReadsAuto()
    ensures ReadTheme([("theme", Obj([("mode", Str("Purple"))]))]) == Ok(Colors(DefaultLight, DefaultLight, "auto"))
    ensures ReadTheme([("theme", Obj([("mode", Str("DARK"))]))]) == Ok(Colors(DefaultLight, DefaultLight, "dark"))
  {
    var t: Object := [("mode", Str("Purple"))];
    assert Lower("Purple") == "purple";
    assert ModeIn(t) == Ok("auto");
    var u: Object := [("mode", Str("DARK"))];
    assert Lower("DARK") == "dark";
    assert ModeIn(u) == Ok("dark");
  }

  /** A schema without a theme is coloured with the light default in "auto"
      mode; the dark colour falls back on the light one before its own
      default, so it is the light default as well. */
  lemma ReadThemeDefaults(schema: Object)
    requires !GetOrNull(schema, "theme").Obj?
    ensures ReadTheme(schema) == Ok(Colors(DefaultLight, DefaultLight, "auto"))
  {
    assert ThemeOf(schema) == [];
    var t: Object := [];
    assert StripOr(GetOrNull(t, "brand"), "") == Ok("");
    assert LightOf(t, "") == Ok(DefaultLight);
    assert DarkOf(t, "", DefaultLight) == Ok(DefaultLight);
    assert ModeIn(t) == Ok("auto");
  }

  /** The dark default is used only when the light colour came out empty
      (a stored "brand_light" of white space alone). */
  lemma DarkDefaultNeedsEmptyLight(theme: Object, single: string, light: string)
    requires Stripped(single) && Stripped(light)
    requires !PyTruthy(GetOrNull(theme, "brand_dark"))
    ensures DarkOf(theme, single, light) == Ok(if single != "" then single else if light != "" then light else DefaultDark)
  {
    if single != "" {
      TrimUnspaced(single, Python);
    } else if light != "" {
      TrimUnspaced(light, Python);
    }
  }

  // ---------------------------------------------------------------------
  // api_save_theme_bg

  /** The validated request: colours that may be "" (meaning "keep") and a mode. */
  datatype ThemeEdit = ThemeEdit(light: string, dark: string, mode: string)

  /** Reads the request body: `payload.get("theme")`, the light colour from
      "brand_light" or "brand", the dark one from "brand_dark", both
      stripped, and the mode from "mode" or "theme_mode" (lower-cased, not
      stripped), "auto" unless it is one of the three. */
  function ParseThemeEdit(body: Json): (r: Result<ThemeEdit>)
    ensures r.Ok? ==> IsMode(r.value.mode)
    ensures r.Ok? ==> Stripped(r.value.light) && Stripped(r.value.dark)
  {
    var payload := OrEmptyObject(body);
    if payload.Err? then Err(Crash) else
    var t := OrEmptyObject(GetOrNull(payload.value, "theme"));
    if t.Err? then Err(Crash) else
    var light := StripOr(PyOr(GetOrNull(t.value, "brand_light"), GetOrNull(t.value, "brand")), "");
    if light.Err? then Err(Crash) else
    var dark := StripOr(GetOrNull(t.value, "brand_dark"), "");
    if dark.Err? then Err(Crash) else
    var mode := ModeOf(PyOr(GetOrNull(t.value, "mode"), GetOrNull(t.value, "theme_mode")));
    if mode.Err? then Err(Crash) else
    Ok(ThemeEdit(light.value, dark.value, mode.value))
  }

  /** The request's mode is the first true one of "mode" and "theme_mode",
      lower-cased when it then names one of the three, "auto" otherwise. */
  lemma ParseThemeEditMode(body: Json, m: string)
    requires body.Obj? && GetOrNull(body.entries, "theme").Obj?
    requires var t := GetOrNull(body.entries, "theme").entries;
      PyOr(GetOrNull(t, "mode"), GetOrNull(t, "theme_mode")) == Str(m)
    requires m != "" && ParseThemeEdit(body).Ok?
    ensures ParseThemeEdit(body).value.mode == if IsMode(Lower(m)) then Lower(m) else "auto"
  {
  }

  /** The keys the handler always removes, from the schema and from its theme. */
  predicate IsRetired(k: string) { k == "bg" || k == "bg_position" || k == "notifications" }

  /** `o.pop(k, None)` for each retired key in turn. */
  function DropRetired(o: Object): (r: Object)
    ensures forall k :: Get(r, k) == if IsRetired(k) then None else Get(o, k)
  {
    Remove(Remove(Remove(o, "bg"), "bg_position"), "notifications")
  }

  /** Removing keys that are all absent changes nothing. */
  lemma DropRetiredAbsent(o: Object)
    requires Get(o, "bg") == None && Get(o, "bg_position") == None && Get(o, "notifications") == None
    ensures DropRetired(o) == o
  {
    RemoveAbsent(o, "bg");
    RemoveAbsent(o, "bg_position");
    RemoveAbsent(o, "notifications");
  }

  /** `if c: theme[k] = c`. */
  function SetColor(t: Object, k: string, c: string): (r: Object)
    ensures forall k' :: Get(r, k') == if k' == k && c != "" then Some(Str(c)) else Get(t, k')
  {
    if c != "" then Put(t, k, Str(c)) else t
  }

  /** The edited theme: non-empty colours replace the stored ones, the mode
      is always written, the retired keys go. */
  function EditedTheme(theme: Object, e: ThemeEdit): Object {
    DropRetired(Put(SetColor(SetColor(theme, "brand_light", e.light), "brand_dark", e.dark), "mode", Str(e.mode)))
  }

  /** What the edited theme holds under each key. */
  function EditedValue(theme: Object, e: ThemeEdit, k: string): Option<Json> {
    if IsRetired(k) then None
    else if k == "mode" then Some(Str(e.mode))
    else if k == "brand_light" && e.light != "" then Some(Str(e.light))
    else if k == "brand_dark" && e.dark != "" then Some(Str(e.dark))
    else Get(theme, k)
  }

  /** Non-empty colours replace the stored ones, the mode is always written,
      the retired keys go, and every other key keeps its value. */
  lemma EditedThemeGet(theme: Object, e: ThemeEdit, k: string)
    ensures Get(EditedTheme(theme, e), k) == EditedValue(theme, e, k)
  {
    var t1 := SetColor(theme, "brand_light", e.light);
    var t2 := SetColor(t1, "brand_dark", e.dark);
    var t3 := Put(t2, "mode", Str(e.mode));
    assert Get(EditedTheme(theme, e), k) == if IsRetired(k) then None else Get(t3, k);
    assert Get(t3, k) == if k == "mode" then Some(Str(e.mode)) else Get(t2, k);
  }

  /** The schema edit of `api_save_theme_bg`: the theme (a fresh `{}` when
      the stored one is not a dictionary) is written back under "theme" and
      the retired keys leave the schema. */
  function EditSchema(schema: Object, e: ThemeEdit): Object {
    DropRetired(Put(schema, "theme", Obj(EditedTheme(ThemeOf(schema), e))))
  }

  /** The edited schema holds the edited theme, none of the retired keys,
      and every other key with its old value. */
  lemma EditSchemaGet(schema: Object, e: ThemeEdit, k: string)
    ensures Get(EditSchema(schema, e), k) ==
      if IsRetired(k) then None
      else if k == "theme" then Some(Obj(EditedTheme(ThemeOf(schema), e)))
      else Get(schema, k)
  {
  }

  /** `api_save_theme_bg` on the `form_defs` schemas keyed by site name: a bad
      request or a stored schema that is not an object fails (500), an unknown
      site gives 404, otherwise that one schema is edited. */
  function SaveTheme(forms: map<string, Json>, site: string, body: Json, parse: string -> Option<Json>): (r: Result<map<string, Json>>)
    ensures r.Ok? <==> ParseThemeEdit(body).Ok? && site in forms && StoredObject(forms[site], parse).Ok?
    ensures ParseThemeEdit(body).Ok? && site !in forms ==> r == Err(NotFound)
    ensures r.Ok? ==> r.value.Keys == forms.Keys
    ensures r.Ok? ==> forall s :: s in forms && s != site ==> r.value[s] == forms[s]
    ensures r.Ok? ==> r.value[site] == Obj(EditSchema(StoredObject(forms[site], parse).value, ParseThemeEdit(body).value))
  {
    var e := ParseThemeEdit(body);
    if e.Err? then Err(Crash)
    else if site !in forms then Err(NotFound)
    else
      var schema := StoredObject(forms[site], parse);
      if schema.Err? then Err(Crash)
      else Ok(forms[site := Obj(EditSchema(schema.value, e.value))])
  }

  // ---------------------------------------------------------------------
  // Saving and reading agree

  lemma ModeIsLower(m: string)
    requires IsMode(m)
    ensures Lower(m) == m
  {
    assert NoAsciiUpper(m) by {
      forall i | 0 <= i < |m| ensures !IsAsciiUpper(m[i]) && m[i] != '\U{130}' && m[i] != '\U{212a}' {
        assert 'a' <= m[i] <= 'z';
      }
    }
    LowerOfLower(m);
  }

  lemma StrippedOfStripped(s: string)
    requires s != "" && Stripped(s)
    ensures StripOr(Str(s), "") == Ok(s)
  {
    TrimUnspaced(s, Python);
  }

  /** The theme under "theme" after the edit is the edited theme. */
  lemma ThemeOfEdited(schema: Object, e: ThemeEdit)
    ensures ThemeOf(EditSchema(schema, e)) == EditedTheme(ThemeOf(schema), e)
  {
    EditSchemaGet(schema, e, "theme");
  }

  /** The edited theme, key by key. */
  lemma EditedThemeView(theme: Object, e: ThemeEdit)
    ensures forall k :: Get(EditedTheme(theme, e), k) == EditedValue(theme, e, k)
  {
    forall k {
      EditedThemeGet(theme, e, k);
    }
  }

  /** After a save that names both colours, every page reads back exactly the
      colours and mode that were saved (provided a "brand" kept from before is
      text, as `_read_theme` still consults it). */
  lemma SaveThenRead(schema: Object, e: ThemeEdit)
    requires IsMode(e.mode) && e.light != "" && e.dark != ""
    requires Stripped(e.light) && Stripped(e.dark)
    requires StrOr(GetOrNull(ThemeOf(schema), "brand"), "").Ok?
    ensures ReadTheme(EditSchema(schema, e)) == Ok(Colors(e.light, e.dark, e.mode))
  {
    ThemeOfEdited(schema, e);
    EditedThemeView(ThemeOf(schema), e);
    ColorsOfEdited(ThemeOf(schema), e, EditedTheme(ThemeOf(schema), e));
  }

  lemma ColorsOfEdited(theme: Object, e: ThemeEdit, t: Object)
    requires forall k :: Get(t, k) == EditedValue(theme, e, k)
    requires IsMode(e.mode) && e.light != "" && e.dark != ""
    requires Stripped(e.light) && Stripped(e.dark)
    requires StrOr(GetOrNull(theme, "brand"), "").Ok?
    ensures ColorsOf(t) == Ok(Colors(e.light, e.dark, e.mode))
  {
    assert Get(t, "brand") == Get(theme, "brand");
    assert Get(t, "brand_light") == Some(Str(e.light));
    assert Get(t, "brand_dark") == Some(Str(e.dark));
    assert Get(t, "mode") == Some(Str(e.mode));
    StrippedOfStripped(e.light);
    StrippedOfStripped(e.dark);
    ModeIsLower(e.mode);
    ColorsOfNamed(t, e.light, e.dark, e.mode);
  }

  /** `_read_theme` of a theme naming both colours and a mode. */
  lemma ColorsOfNamed(theme: Object, light: string, dark: string, mode: string)
    requires StrOr(GetOrNull(theme, "brand"), "").Ok?
    requires GetOrNull(theme, "brand_light") == Str(light) && StripOr(Str(light), "") == Ok(light) && light != ""
    requires GetOrNull(theme, "brand_dark") == Str(dark) && StripOr(Str(dark), "") == Ok(dark) && dark != ""
    requires GetOrNull(theme, "mode") == Str(mode) && IsMode(mode) && Lower(mode) == mode
    ensures ColorsOf(theme) == Ok(Colors(light, dark, mode))
  {
    var single := StripOr(GetOrNull(theme, "brand"), "");
    assert single.Ok?;
    assert LightOf(theme, single.value) == Ok(light);
    assert DarkOf(theme, single.value, light) == Ok(dark);
    assert ModeIn(theme) == Ok(mode);
  }

  /** A save that leaves a colour empty keeps the stored one. */
  lemma SaveKeepsUnnamedColors(schema: Object, e: ThemeEdit)
    ensures e.light == "" ==> GetOrNull(ThemeOf(EditSchema(schema, e)), "brand_light") == GetOrNull(ThemeOf(schema), "brand_light")
    ensures e.dark == "" ==> GetOrNull(ThemeOf(EditSchema(schema, e)), "brand_dark") == GetOrNull(ThemeOf(schema), "brand_dark")
  {
    ThemeOfEdited(schema, e);
    EditedThemeView(ThemeOf(schema), e);
    KeepsUnnamed(ThemeOf(schema), e, EditedTheme(ThemeOf(schema), e));
  }

  lemma KeepsUnnamed(theme: Object, e: ThemeEdit, t: Object)
    requires forall k :: Get(t, k) == EditedValue(theme, e, k)
    ensures e.light == "" ==> Get(t, "brand_light") == Get(theme, "brand_light")
    ensures e.dark == "" ==> Get(t, "brand_dark") == Get(theme, "brand_dark")
  {
    assert Get(t, "brand_light") == EditedValue(theme, e, "brand_light");
    assert Get(t, "brand_dark") == EditedValue(theme, e, "brand_dark");
  }

  /** A theme that already holds what the edit writes, and none of the
      retired keys, is left as it is. */
  lemma EditedThemeFixed(t: Object, e: ThemeEdit)
    requires e.light != "" ==> Get(t, "brand_light") == Some(Str(e.light))
    requires e.dark != "" ==> Get(t, "brand_dark") == Some(Str(e.dark))
    requires Get(t, "mode") == Some(Str(e.mode))
    requires Get(t, "bg") == None && Get(t, "bg_position") == None && Get(t, "notifications") == None
    ensures EditedTheme(t, e) == t
  {
    var t1 := SetColor(t, "brand_light", e.light);
    if e.light != "" { PutPresent(t, "brand_light", Str(e.light)); }
    assert t1 == t;
    var t2 := SetColor(t1, "brand_dark", e.dark);
    if e.dark != "" { PutPresent(t1, "brand_dark", Str(e.dark)); }
    assert t2 == t;
    PutPresent(t2, "mode", Str(e.mode));
    DropRetiredAbsent(t);
  }

  lemma EditedFixed(theme: Object, e: ThemeEdit, t: Object)
    requires forall k :: Get(t, k) == EditedValue(theme, e, k)
    ensures EditedTheme(t, e) == t
  {
    assert Get(t, "brand_light") == EditedValue(theme, e, "brand_light");
    assert Get(t, "brand_dark") == EditedValue(theme, e, "brand_dark");
    assert Get(t, "mode") == EditedValue(theme, e, "mode");
    assert Get(t, "bg") == EditedValue(theme, e, "bg");
    assert Get(t, "bg_position") == EditedValue(theme, e, "bg_position");
    assert Get(t, "notifications") == EditedValue(theme, e, "notifications");
    EditedThemeFixed(t, e);
  }

  lemma EditedThemeAgain(theme: Object, e: ThemeEdit)
    ensures EditedTheme(EditedTheme(theme, e), e) == EditedTheme(theme, e)
  {
    EditedThemeView(theme, e);
    EditedFixed(theme, e, EditedTheme(theme, e));
  }

  /** Saving the same choice twice leaves the schema as one save did. */
  lemma EditSchemaIdempotent(schema: Object, e: ThemeEdit)
    ensures EditSchema(EditSchema(schema, e), e) == EditSchema(schema, e)
  {
    var s := EditSchema(schema, e);
    ThemeOfEdited(schema, e);
    EditedThemeAgain(ThemeOf(schema), e);
    EditSchemaGet(schema, e, "theme");
    EditSchemaGet(schema, e, "bg");
    EditSchemaGet(schema, e, "bg_position");
    EditSchemaGet(schema, e, "notifications");
    SchemaFixed(s, e, EditedTheme(ThemeOf(schema), e));
  }

  lemma SchemaFixed(s: Object, e: ThemeEdit, t: Object)
    requires ThemeOf(s) == t && EditedTheme(t, e) == t
    requires Get(s, "theme") == Some(Obj(t))
    requires Get(s, "bg") == None && Get(s, "bg_position") == None && Get(s, "notifications") == None
    ensures EditSchema(s, e) == s
  {
    PutPresent(s, "theme", Obj(t));
    DropRetiredAbsent(s);
  }
}
