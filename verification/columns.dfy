/** `_extract_columns_from_schema` in app.py: which fields of a form's schema
    become columns of the admin table and its exports, and under which
    label. Only fields with a key and a Chinese label become columns. */
module Columns {
  import opened Results
  import opened Text
  import opened JsonValues

  /** One column: the field key, its label (heading), its type (all as text). */
  datatype Column = Column(key: string, heading: string, kind: string)

  // ---------------------------------------------------------------------
  // Label text

  /** The index of the first `c` in `s`, if any. */
  function FirstIndex(s: string, c: char): (r: Option<nat>)
    ensures r.Some? ==> r.value < |s| && s[r.value] == c && Lacks(s[..r.value], c)
    ensures r.None? ==> Lacks(s, c)
  {
    if s == [] then None
    else if s[0] == c then Some(0)
    else
      var r := FirstIndex(s[1..], c);
      if r.None? then None
      else
        assert s[..r.value + 1] == [s[0]] + s[1..][..r.value];
        Some(r.value + 1)
  }

  /** `re.sub(r"<[^>]+>", "", s)`: every '<' that is followed, after at least
      one character, by a '>' starts a tag reaching to the first such '>';
      tags are removed left to right without overlapping. */
  function StripTags(s: string): (r: string)
    ensures |r| <= |s|
    ensures forall c :: Lacks(s, c) ==> Lacks(r, c)
    ensures s != [] && s[0] != '<' ==> r != [] && r[0] == s[0]
    decreases |s|
  {
    if s == [] then []
    else
      var close := FirstIndex(s[1..], '>');
      if s[0] == '<' && close.Some? && close.value >= 1 then StripTags(s[close.value + 2..])
      else
        var rest := StripTags(s[1..]);
        assert forall c :: Lacks(s, c) ==> Lacks(s[1..], c);
        [s[0]] + rest
  }

  /** No tag is left: every '<' is followed at once by '>' or by no '>' at all. */
  predicate NoTag(s: string) {
    forall i :: 0 <= i < |s| && s[i] == '<' ==> (i + 1 < |s| && s[i + 1] == '>') || Lacks(s[i + 1..], '>')
  }

  lemma NoTagTail(s: string)
    requires s != [] && NoTag(s)
    ensures NoTag(s[1..])
  {
    forall i | 0 <= i < |s[1..]| && s[1..][i] == '<'
      ensures (i + 1 < |s[1..]| && s[1..][i + 1] == '>') || Lacks(s[1..][i + 1..], '>')
    {
      assert s[i + 1] == '<';
      assert s[1..][i + 1..] == s[i + 2..];
    }
  }

  lemma NoTagCons(c: char, r: string)
    requires NoTag(r)
    requires c == '<' ==> (r != [] && r[0] == '>') || Lacks(r, '>')
    ensures NoTag([c] + r)
  {
    var s := [c] + r;
    forall i | 0 <= i < |s| && s[i] == '<'
      ensures (i + 1 < |s| && s[i + 1] == '>') || Lacks(s[i + 1..], '>')
    {
      if i == 0 {
        assert s[1..] == r;
      } else {
        assert s[i] == r[i - 1];
        assert s[i + 1..] == r[i..];
      }
    }
  }

  /** The text `re.sub` leaves holds no further tag. */
  lemma {:induction false} StripTagsLeavesNoTag(s: string)
    ensures NoTag(StripTags(s))
    decreases |s|
  {
    if s != [] {
      var close := FirstIndex(s[1..], '>');
      if s[0] == '<' && close.Some? && close.value >= 1 {
        StripTagsLeavesNoTag(s[close.value + 2..]);
      } else {
        StripTagsLeavesNoTag(s[1..]);
        var rest := StripTags(s[1..]);
        if s[0] == '<' {
          if close.Some? {
            assert s[1] == '>';
          }
        }
        NoTagCons(s[0], rest);
      }
    }
  }

  /** Text without tags passes through unchanged. */
  lemma {:induction false} StripTagsKeepsPlain(s: string)
    requires NoTag(s)
    ensures StripTags(s) == s
    decreases |s|
  {
    if s != [] {
      NoTagTail(s);
      StripTagsKeepsPlain(s[1..]);
      if s[0] == '<' {
        var close := FirstIndex(s[1..], '>');
        assert close.Some? ==> close.value == 0;
      }
    }
  }

  /** Removing tags twice is removing them once. */
  lemma StripTagsIdempotent(s: string)
    ensures StripTags(StripTags(s)) == StripTags(s)
  {
    StripTagsLeavesNoTag(s);
    StripTagsKeepsPlain(StripTags(s));
  }

  /** `_to_text`: a string without tags and surrounding white space; any other value is "". */
  function ToText(v: Json): (r: string)
    ensures !v.Str? ==> r == ""
    ensures r == [] || (!IsPySpace(r[0]) && !IsPySpace(r[|r| - 1]))
  {
    if v.Str? then PyStrip(StripTags(v.s)) else ""
  }

  /** `_has_cjk`: some character lies in the CJK Unified Ideographs block U+4E00..U+9FFF. */
  predicate HasCjk(s: string) {
    exists i :: 0 <= i < |s| && IsCjk(s[i])
  }

  predicate IsCjk(c: char) { '一' <= c <= '鿿' }

  // ---------------------------------------------------------------------
  // pick_label

  /** The dictionary-valued sub-objects `ui`, `props` and `meta` as
      `(f.get(k) or {})`: a true value that is not a dictionary raises. */
  function Sub(f: Object, k: string): Result<Object> {
    OrEmptyObject(GetOrNull(f, k))
  }

  /** The fifteen candidates of `pick_label`, in order. The tuple is built in
      full before any is looked at, so a bad `ui`, `props` or `meta` raises
      even when an earlier candidate would have served. */
  function LabelCandidates(f: Object): (r: Result<seq<Json>>)
    ensures r.Ok? <==> Sub(f, "ui").Ok? && Sub(f, "props").Ok? && Sub(f, "meta").Ok?
    ensures r.Ok? ==> |r.value| == 15 && r.value[0] == GetOrNull(f, "label")
  {
    var ui := Sub(f, "ui");
    var props := Sub(f, "props");
    var meta := Sub(f, "meta");
    if ui.Err? || props.Err? || meta.Err? then Err(Crash)
    else
      Ok([GetOrNull(f, "label"), GetOrNull(f, "title"), GetOrNull(f, "text"), GetOrNull(f, "name"),
          GetOrNull(f, "placeholder"), GetOrNull(f, "question"), GetOrNull(f, "displayName"),
          GetOrNull(f, "desc"), GetOrNull(f, "description"),
          GetOrNull(ui.value, "label"), GetOrNull(ui.value, "title"),
          GetOrNull(props.value, "label"), GetOrNull(props.value, "title"),
          GetOrNull(meta.value, "label"), GetOrNull(meta.value, "title")])
  }

  /** No candidate before position `i` yields text. */
  predicate NoTextBefore(cands: seq<Json>, i: int)
    requires 0 <= i <= |cands|
  {
    forall j :: 0 <= j < i ==> ToText(cands[j]) == ""
  }

  /** The text of the first candidate that yields non-empty text, or "". */
  function FirstText(cands: seq<Json>): (r: string)
    ensures r != "" ==> exists i :: 0 <= i < |cands| && r == ToText(cands[i]) && NoTextBefore(cands, i)
    ensures r == "" ==> NoTextBefore(cands, |cands|)
  {
    if cands == [] then ""
    else
      var t := if PyTruthy(cands[0]) then ToText(cands[0]) else "";
      if t != "" then
        assert NoTextBefore(cands, 0);
        t
      else
        assert ToText(cands[0]) == "";
        var r := FirstText(cands[1..]);
        if r != "" then
          var k :| 0 <= k < |cands[1..]| && r == ToText(cands[1..][k]) && NoTextBefore(cands[1..], k);
          NoTextShifted(cands, k);
          r
        else
          NoTextShifted(cands, |cands| - 1);
          r
  }

  lemma NoTextShifted(cands: seq<Json>, k: int)
    requires 0 <= k < |cands| && ToText(cands[0]) == "" && NoTextBefore(cands[1..], k)
    ensures NoTextBefore(cands, k + 1)
  {
    forall j | 0 <= j < k + 1 ensures ToText(cands[j]) == "" {
      if j > 0 { assert cands[j] == cands[1..][j - 1]; }
    }
  }

  /** The objects `pick_label` falls back on, and the language keys it tries in each. */
  function FallbackKeys(): seq<string> { ["i18n", "labelHTML", "label", "title", "question"] }
  function LangKeys(): seq<string> { ["zh-CN", "zh_CN", "zh-cn", "zh", "text", "title", "label", "question", "en"] }

  /** `_to_text(obj.get(k) or "")` for the language keys in order, the first non-empty. */
  function LangText(obj: Object, langs: seq<string>): string {
    if langs == [] then ""
    else
      var v := GetOrNull(obj, langs[0]);
      var t := ToText(if PyTruthy(v) then v else Str(""));
      if t != "" then t else LangText(obj, langs[1..])
  }

  /** The fallback loop over dictionary-valued keys (translations, rich text). */
  function FallbackText(f: Object, keys: seq<string>): string {
    if keys == [] then ""
    else
      var obj := GetOrNull(f, keys[0]);
      var t := if obj.Obj? then LangText(obj.entries, LangKeys()) else "";
      if t != "" then t else FallbackText(f, keys[1..])
  }

  /** `pick_label`. */
  function PickLabel(f: Object): (r: Result<string>)
    ensures r.Ok? <==> LabelCandidates(f).Ok?
    ensures r.Ok? && FirstText(LabelCandidates(f).value) != "" ==> r.value == FirstText(LabelCandidates(f).value)
  {
    var cands := LabelCandidates(f);
    if cands.Err? then Err(Crash)
    else
      var t := FirstText(cands.value);
      if t != "" then Ok(t) else Ok(FallbackText(f, FallbackKeys()))
  }

  /** A plain string label wins over every other candidate, tags and
      surrounding white space removed. */
  lemma LabelFirst(f: Object, s: string)
    requires GetOrNull(f, "label") == Str(s) && PyStrip(StripTags(s)) != ""
    requires LabelCandidates(f).Ok?
    ensures PickLabel(f) == Ok(PyStrip(StripTags(s)))
  {
    var cands := LabelCandidates(f).value;
    assert ToText(cands[0]) == PyStrip(StripTags(s));
  }

  /** When none of the fifteen candidates yields text, the Chinese entry of
      the `i18n` translations is the label. */
  lemma LabelFromTranslations(f: Object, e: Object, s: string)
    requires LabelCandidates(f).Ok? && FirstText(LabelCandidates(f).value) == ""
    requires GetOrNull(f, "i18n") == Obj(e)
    requires GetOrNull(e, "zh-CN") == Str(s) && PyStrip(StripTags(s)) != ""
    ensures PickLabel(f) == Ok(PyStrip(StripTags(s)))
  {
    assert LangText(e, LangKeys()) == PyStrip(StripTags(s));
    assert FallbackText(f, FallbackKeys()) == PyStrip(StripTags(s));
  }

  // ---------------------------------------------------------------------
  // The column loop

  /** `f.get("key") or f.get("id") or f.get("name")`. */
  function FieldKey(f: Object): Json {
    var k := GetOrNull(f, "key");
    if PyTruthy(k) then k
    else
      var i := GetOrNull(f, "id");
      if PyTruthy(i) then i else GetOrNull(f, "name")
  }

  /** `f.get("type") or (f.get("ui") or {}).get("type") or ""`. */
  function FieldType(f: Object): Result<Json> {
    var t := GetOrNull(f, "type");
    if PyTruthy(t) then Ok(t)
    else
      var ui := Sub(f, "ui");
      if ui.Err? then Err(Crash)
      else
        var u := GetOrNull(ui.value, "type");
        Ok(if PyTruthy(u) then u else Str(""))
  }

  /** What one element of the field list contributes: nothing for a
      non-dictionary, a field without key or a label without Chinese; else
      its column. */
  function ColumnOf(item: Json): (r: Result<Option<Column>>)
    ensures r.Ok? && r.value.Some? ==>
      && item.Obj?
      && r.value.value.key != ""
      && HasCjk(r.value.value.heading)
  {
    if item.Obj? then FieldColumn(item.entries) else Ok(None)
  }

  /** The column of a dictionary field. */
  function FieldColumn(f: Object): (r: Result<Option<Column>>)
    ensures r.Ok? && r.value.Some? ==>
      && PyTruthy(FieldKey(f)) && r.value.value.key == PyStr(FieldKey(f))
      && r.value.value.key != ""
      && PickLabel(f) == Ok(r.value.value.heading)
      && HasCjk(r.value.value.heading)
  {
    var key := FieldKey(f);
    if !PyTruthy(key) then Ok(None)
    else
      var lab := PickLabel(f);
      if lab.Err? then Err(Crash)
      else if lab.value == "" || !HasCjk(lab.value) then Ok(None)
      else
        var kind := FieldType(f);
        if kind.Err? then Err(Crash)
        else Ok(Some(Column(PyStr(key), lab.value, PyStr(kind.value))))
  }

  /** A loop that maps each element to an optional output and stops at the
      first exception; the outputs that are present are kept in order. */
  function Gather<A, B>(xs: seq<A>, f: A -> Result<Option<B>>): (r: Result<seq<B>>)
    ensures r.Ok? ==> |r.value| <= |xs|
  {
    if xs == [] then Ok([])
    else
      var c := f(xs[0]);
      var rest := Gather(xs[1..], f);
      if c.Err? then Err(c.error)
      else if rest.Err? then Err(rest.error)
      else if c.value.Some? then Ok([c.value.value] + rest.value)
      else rest
  }

  /** Every output comes from some element, and the loop fails exactly when
      some element fails. */
  lemma {:induction false} GatherFrom<A, B>(xs: seq<A>, f: A -> Result<Option<B>>)
    ensures var r := Gather(xs, f);
      r.Ok? ==> forall j :: 0 <= j < |r.value| ==> exists i :: 0 <= i < |xs| && f(xs[i]) == Ok(Some(r.value[j]))
    ensures Gather(xs, f).Err? <==> exists i :: 0 <= i < |xs| && f(xs[i]).Err?
  {
    if xs != [] {
      GatherFrom(xs[1..], f);
      assert forall i :: 1 <= i < |xs| ==> xs[i] == xs[1..][i - 1];
      var c := f(xs[0]);
      var rest := Gather(xs[1..], f);
      if c.Ok? && rest.Ok? && c.value.Some? {
        var r := [c.value.value] + rest.value;
        assert forall j :: 1 <= j < |r| ==> r[j] == rest.value[j - 1];
      }
    }
  }

  /** Outputs are gathered element by element: those of a concatenation are
      the outputs of each part, in order. */
  lemma {:induction false} GatherAppend<A, B>(a: seq<A>, b: seq<A>, f: A -> Result<Option<B>>)
    requires Gather(a, f).Ok? && Gather(b, f).Ok?
    ensures Gather(a + b, f) == Ok(Gather(a, f).value + Gather(b, f).value)
  {
    if a == [] {
      assert a + b == b;
      assert Gather(a, f).value + Gather(b, f).value == Gather(b, f).value;
    } else {
      assert (a + b)[0] == a[0] && (a + b)[1..] == a[1..] + b;
      GatherAppend(a[1..], b, f);
      var c := f(a[0]);
      if c.value.Some? {
        var x, ra, rb := c.value.value, Gather(a[1..], f).value, Gather(b, f).value;
        assert [x] + (ra + rb) == ([x] + ra) + rb;
      }
    }
  }

  /** The loop over the field list; an exception in any field aborts it. */
  function ColumnsOf(items: seq<Json>): (r: Result<seq<Column>>)
    ensures r.Ok? ==> |r.value| <= |items|
  {
    Gather(items, ColumnOf)
  }

  /** Every column has a non-empty key and a label with a Chinese character,
      and comes from some field of the list. */
  lemma ColumnsAreLabelled(items: seq<Json>)
    requires ColumnsOf(items).Ok?
    ensures forall j :: 0 <= j < |ColumnsOf(items).value| ==>
      ColumnsOf(items).value[j].key != "" && HasCjk(ColumnsOf(items).value[j].heading)
  {
    var cs := ColumnsOf(items).value;
    GatherFrom(items, ColumnOf);
    forall j | 0 <= j < |cs|
      ensures cs[j].key != "" && HasCjk(cs[j].heading)
    {
      var i :| 0 <= i < |items| && ColumnOf(items[i]) == Ok(Some(cs[j]));
    }
  }

  /** Columns are found field by field. */
  lemma ColumnsOfAppend(a: seq<Json>, b: seq<Json>)
    requires ColumnsOf(a).Ok? && ColumnsOf(b).Ok?
    ensures ColumnsOf(a + b) == Ok(ColumnsOf(a).value + ColumnsOf(b).value)
  {
    GatherAppend(a, b, ColumnOf);
  }

  /** The field list: the first of "fields", "questions" and "items" that holds a list. */
  function FieldList(schema: Object): (r: seq<Json>)
    ensures GetOrNull(schema, "fields").Arr? ==> r == GetOrNull(schema, "fields").items
    ensures !GetOrNull(schema, "fields").Arr? && GetOrNull(schema, "questions").Arr? ==>
      r == GetOrNull(schema, "questions").items
    ensures !GetOrNull(schema, "fields").Arr? && !GetOrNull(schema, "questions").Arr? ==>
      r == (if GetOrNull(schema, "items").Arr? then GetOrNull(schema, "items").items else [])
  {
    var a := GetOrNull(schema, "fields");
    var b := GetOrNull(schema, "questions");
    var c := GetOrNull(schema, "items");
    if a.Arr? then a.items else if b.Arr? then b.items else if c.Arr? then c.items else []
  }

  /** `_extract_columns_from_schema`. */
  function ExtractColumns(schema: Json): (r: Result<seq<Column>>)
    ensures !schema.Obj? ==> r == Ok([])
    ensures schema.Obj? ==> r == ColumnsOf(FieldList(schema.entries))
  {
    if !schema.Obj? then Ok([]) else ColumnsOf(FieldList(schema.entries))
  }

  /** A field whose label has no Chinese character never becomes a column,
      whatever else it holds. */
  lemma NonChineseLabelSkipped(f: Object)
    requires PickLabel(f).Ok? && !HasCjk(PickLabel(f).value)
    ensures ColumnOf(Obj(f)) == Ok(None)
  {
  }

  /** Conversely, a dictionary field with a key and a label holding a Chinese
      character always becomes a column, with its key and type as text. */
  lemma ChineseLabelKept(f: Object)
    requires PyTruthy(FieldKey(f))
    requires PickLabel(f).Ok? && HasCjk(PickLabel(f).value)
    ensures FieldType(f).Ok?
    ensures ColumnOf(Obj(f)) == Ok(Some(Column(PyStr(FieldKey(f)), PickLabel(f).value, PyStr(FieldType(f).value))))
  {
    assert ColumnOf(Obj(f)) == FieldColumn(f);
    TypeReadable(f);
    assert PickLabel(f).value != "";
  }

  /** When `pick_label` got past `ui`, reading the type does too. */
  lemma TypeReadable(f: Object)
    requires PickLabel(f).Ok?
    ensures FieldType(f).Ok?
  {
    assert Sub(f, "ui").Ok?;
  }
}
