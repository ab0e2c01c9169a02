/** The responses table of static/builder.js: how a question's answer is found
    in a submission (`normalizeKey`, `valueByQuestion`), how cells are made
    safe for HTML (`escapeHTML`, `fmtVal`), and which columns the table shows
    (`getFixedFieldIds`, `rebuildRespHeader`). A question is seen through its
    id and its label text; extracting that text from the label's HTML is done
    by the browser and is an input here. */
module Responses {
  import opened Results
  import opened Text
  import opened JsonValues

  /** A question of `schema.fields`: its id (None when null or undefined) and
      the trimmed text content of its label. */
  datatype Question = Question(id: Option<string>, text: string)

  // ---------------------------------------------------------------------
  // normalizeKey

  /** The characters `normalizeKey` deletes: white space and the listed
      ASCII and full-width punctuation. */
  predicate IsKeyPunct(c: char) {
    || IsJsSpace(c) || c == '_' || c == ':' || c == '-' || c == '/' || c == '（' || c == '）'
    || c == '(' || c == ')' || c == '[' || c == ']' || c == '【' || c == '】' || c == '<' || c == '>'
    || c == '·' || c == '.' || c == '，' || c == ',' || c == '。' || c == '；' || c == ';'
    || c == '\'' || c == '"' || c == '|'
  }

  /** Deletes every key punctuation character. */
  function DropPunct(s: string): (r: string)
    ensures |r| <= |s|
  {
    if s == [] then []
    else if IsKeyPunct(s[0]) then DropPunct(s[1..])
    else [s[0]] + DropPunct(s[1..])
  }

  predicate NoPunct(s: string) {
    forall i :: 0 <= i < |s| ==> !IsKeyPunct(s[i])
  }

  /** `normalizeKey(s)`: punctuation and white space removed, then lower-cased. */
  function NormalizeKey(s: string): string {
    Lower(DropPunct(s))
  }

  lemma {:induction false} DropPunctClean(s: string)
    ensures NoPunct(DropPunct(s))
  {
    if s != [] {
      DropPunctClean(s[1..]);
    }
  }

  lemma {:induction false} DropPunctOfClean(s: string)
    requires NoPunct(s)
    ensures DropPunct(s) == s
  {
    if s != [] {
      DropPunctOfClean(s[1..]);
    }
  }

  /** Lower-casing brings in no punctuation. */
  lemma {:induction false} LowerKeepsClean(s: string)
    requires NoPunct(s)
    ensures NoPunct(Lower(s))
  {
    if s != [] {
      LowerKeepsClean(s[1..]);
      assert NoPunct(LowerChar(s[0]));
      assert Lower(s) == LowerChar(s[0]) + Lower(s[1..]);
    }
  }

  /** A normalised key has no upper-case letter and none of the deleted
      characters, and normalising it again changes nothing. */
  lemma NormalizeKeyNormal(s: string)
    ensures NoAsciiUpper(NormalizeKey(s))
    ensures NoPunct(NormalizeKey(s))
    ensures NormalizeKey(NormalizeKey(s)) == NormalizeKey(s)
  {
    var d := DropPunct(s);
    LowerHasNoUpper(d);
    DropPunctClean(s);
    LowerKeepsClean(d);
    DropPunctOfClean(Lower(d));
    LowerIdempotent(d);
  }

  // ---------------------------------------------------------------------
  // valueByQuestion

  /** `d[k] != null && d[k] !== ''` for an own property k. */
  predicate Filled(d: Object, k: string) {
    Get(d, k).Some? && Get(d, k).value != Null && Get(d, k).value != Str("")
  }

  /** The index of the first entry whose key normalises to `want`. */
  function FirstNormalized(d: Object, want: string): (r: Option<nat>)
    ensures r.None? ==> forall i :: 0 <= i < |d| ==> NormalizeKey(d[i].0) != want
    ensures r.Some? ==> r.value < |d| && NormalizeKey(d[r.value].0) == want
    ensures r.Some? ==> forall j :: 0 <= j < r.value ==> NormalizeKey(d[j].0) != want
  {
    if d == [] then None
    else if NormalizeKey(d[0].0) == want then Some(0)
    else
      var r := FirstNormalized(d[1..], want);
      if r.None? then None else Some(r.value + 1)
  }

  /** `valueByQuestion(d, q)`: the answer under the question's id, else under
      its label, else under the first key that normalises like the label,
      else "". Data that is not an object is taken to have no keys. */
  function ValueByQuestion(d: Json, q: Option<Question>): Json {
    if !JsTruthy(d) || q.None? || !d.Obj? then Str("")
    else
      var o := d.entries;
      var id := q.value.id;
      var lab := q.value.text;
      if id.Some? && Filled(o, id.value) then Get(o, id.value).value
      else if lab != "" && Filled(o, lab) then Get(o, lab).value
      else
        var hit := FirstNormalized(o, NormalizeKey(lab));
        if hit.Some? then o[hit.value].1 else Str("")
  }

  /** Neither the id nor the exact label holds an answer. */
  predicate NoDirectAnswer(o: Object, q: Question) {
    !(q.id.Some? && Filled(o, q.id.value)) && !(q.text != "" && Filled(o, q.text))
  }

  /** The four levels of `valueByQuestion`, in order of priority; the third
      takes the first key, in entry order, that normalises like the label. */
  lemma ValuePriority(o: Object, q: Question)
    ensures q.id.Some? && Filled(o, q.id.value) ==>
      ValueByQuestion(Obj(o), Some(q)) == Get(o, q.id.value).value
    ensures !(q.id.Some? && Filled(o, q.id.value)) && q.text != "" && Filled(o, q.text) ==>
      ValueByQuestion(Obj(o), Some(q)) == Get(o, q.text).value
    ensures NoDirectAnswer(o, q) && FirstNormalized(o, NormalizeKey(q.text)).Some? ==>
      ValueByQuestion(Obj(o), Some(q)) == o[FirstNormalized(o, NormalizeKey(q.text)).value].1
    ensures NoDirectAnswer(o, q) && (forall i :: 0 <= i < |o| ==> NormalizeKey(o[i].0) != NormalizeKey(q.text)) ==>
      ValueByQuestion(Obj(o), Some(q)) == Str("")
  {
  }

  // ---------------------------------------------------------------------
  // escapeHTML

  /** One character of `escapeHTML`. */
  function EscapeChar(c: char): string {
    if c == '&' then "&amp;"
    else if c == '<' then "&lt;"
    else if c == '>' then "&gt;"
    else if c == '"' then "&quot;"
    else if c == '\'' then "&#39;"
    else [c]
  }

  predicate IsMarkup(c: char) { c == '<' || c == '>' || c == '"' || c == '\'' }

  /** The five entities `escapeHTML` writes. */
  predicate EntityAt(s: string, i: nat)
    requires i <= |s|
  {
    StartsWith(s[i..], "&amp;") || StartsWith(s[i..], "&lt;") || StartsWith(s[i..], "&gt;") ||
    StartsWith(s[i..], "&quot;") || StartsWith(s[i..], "&#39;")
  }

  /** `escapeHTML(s)`: the five HTML-special characters replaced by entities. */
  function EscapeHtml(s: string): (r: string)
    ensures forall i :: 0 <= i < |r| ==> !IsMarkup(r[i])
    ensures |r| >= |s|
  {
    if s == [] then [] else EscapeChar(s[0]) + EscapeHtml(s[1..])
  }

  /** Every ampersand of an escaped text begins one of the five entities. */
  lemma {:induction false} EscapedAmpersands(s: string)
    ensures forall i :: 0 <= i < |EscapeHtml(s)| && EscapeHtml(s)[i] == '&' ==> EntityAt(EscapeHtml(s), i)
  {
    if s != [] {
      EscapedAmpersands(s[1..]);
      var h := EscapeChar(s[0]);
      var t := EscapeHtml(s[1..]);
      var r := EscapeHtml(s);
      assert r == h + t;
      forall i | 0 <= i < |r| && r[i] == '&'
        ensures EntityAt(r, i)
      {
        if i < |h| {
          assert i == 0;
          assert r[..|h|] == h;
        } else {
          assert r[i..] == t[i - |h|..];
        }
      }
    }
  }

  /** Decoding of the five entities, the inverse of `EscapeHtml`. */
  function Unescape(s: string): string {
    if s == [] then []
    else if s[0] != '&' then [s[0]] + Unescape(s[1..])
    else if StartsWith(s, "&amp;") then "&" + Unescape(s[5..])
    else if StartsWith(s, "&lt;") then "<" + Unescape(s[4..])
    else if StartsWith(s, "&gt;") then ">" + Unescape(s[4..])
    else if StartsWith(s, "&quot;") then "\"" + Unescape(s[6..])
    else if StartsWith(s, "&#39;") then "'" + Unescape(s[5..])
    else [s[0]] + Unescape(s[1..])
  }

  /** Decoding reads an entity of length `n` standing for `c` back off the
      front of a text. */
  lemma UnescapeEntity(e: string, c: char, t: string)
    requires e == "&amp;" || e == "&lt;" || e == "&gt;" || e == "&quot;" || e == "&#39;"
    requires c == (if e == "&amp;" then '&' else if e == "&lt;" then '<' else if e == "&gt;" then '>'
                   else if e == "&quot;" then '"' else '\'')
    ensures Unescape(e + t) == [c] + Unescape(t)
  {
    var s := e + t;
    assert s[..|e|] == e;
    assert s[|e|..] == t;
    assert s[1] == e[1];
    if e != "&amp;" {
      assert !StartsWith(s, "&amp;") by { assert "&amp;"[1] == 'a'; }
    }
    if e != "&amp;" && e != "&lt;" {
      assert !StartsWith(s, "&lt;") by { assert "&lt;"[1] == 'l'; }
    }
    if e == "&quot;" || e == "&#39;" {
      assert !StartsWith(s, "&gt;") by { assert "&gt;"[1] == 'g'; }
    }
    if e == "&#39;" {
      assert !StartsWith(s, "&quot;") by { assert "&quot;"[1] == 'q'; }
    }
  }

  /** Decoding reads a character other than '&' back off the front of a text. */
  lemma UnescapePlain(c: char, t: string)
    requires c != '&'
    ensures Unescape([c] + t) == [c] + Unescape(t)
  {
    var s := [c] + t;
    assert s[0] == c;
    assert s[1..] == t;
  }

  /** Decoding reads an escaped character back off the front of a text. */
  lemma UnescapeCons(c: char, t: string)
    ensures Unescape(EscapeChar(c) + t) == [c] + Unescape(t)
  {
    if c == '&' {
      UnescapeEntity("&amp;", c, t);
    } else if c == '<' {
      UnescapeEntity("&lt;", c, t);
    } else if c == '>' {
      UnescapeEntity("&gt;", c, t);
    } else if c == '"' {
      UnescapeEntity("&quot;", c, t);
    } else if c == '\'' {
      UnescapeEntity("&#39;", c, t);
    } else {
      UnescapePlain(c, t);
    }
  }

  /** Decoding an escaped text gives back the text. */
  lemma {:induction false} UnescapeEscape(s: string)
    ensures Unescape(EscapeHtml(s)) == s
  {
    if s != [] {
      UnescapeEscape(s[1..]);
      UnescapeCons(s[0], EscapeHtml(s[1..]));
      assert s == [s[0]] + s[1..];
    }
  }

  // ---------------------------------------------------------------------
  // fmtVal

  /** The page services `fmtVal` calls: resolving a site path against the page
      origin (`new URL(raw, origin).href`) and `JSON.stringify`. */
  datatype Page = Page(resolve: string -> string, stringify: Json -> string)

  /** Replaces every occurrence of one character by a text. */
  function ReplaceChar(s: string, c: char, rep: string): (r: string)
    ensures Lacks(rep, c) ==> Lacks(r, c)
  {
    if s == [] then [] else (if s[0] == c then rep else [s[0]]) + ReplaceChar(s[1..], c, rep)
  }

  /** Plain text with its angle brackets escaped, one character at a time. */
  function EscapeAngles(s: string): (r: string)
    ensures Lacks(r, '<') && Lacks(r, '>')
  {
    if s == [] then [] else AngleChar(s[0]) + EscapeAngles(s[1..])
  }

  function AngleChar(c: char): string {
    if c == '<' then "&lt;" else if c == '>' then "&gt;" else [c]
  }

  lemma {:induction false} ReplaceAppend(a: string, b: string, c: char, rep: string)
    ensures ReplaceChar(a + b, c, rep) == ReplaceChar(a, c, rep) + ReplaceChar(b, c, rep)
  {
    if a == [] {
      assert a + b == b;
    } else {
      assert (a + b)[0] == a[0];
      assert (a + b)[1..] == a[1..] + b;
      ReplaceAppend(a[1..], b, c, rep);
    }
  }

  /** The source's two passes, `.replace(/</g,'&lt;').replace(/>/g,'&gt;')`,
      are the one-pass escaping: the first pass writes no '>'. */
  lemma {:induction false} EscapeAnglesTwoPass(s: string)
    ensures ReplaceChar(ReplaceChar(s, '<', "&lt;"), '>', "&gt;") == EscapeAngles(s)
  {
    if s != [] {
      EscapeAnglesTwoPass(s[1..]);
      var h := if s[0] == '<' then "&lt;" else [s[0]];
      assert ReplaceChar(s, '<', "&lt;") == h + ReplaceChar(s[1..], '<', "&lt;");
      ReplaceAppend(h, ReplaceChar(s[1..], '<', "&lt;"), '>', "&gt;");
      if s[0] == '>' {
        assert ReplaceChar(h, '>', "&gt;") == "&gt;" + ReplaceChar(h[1..], '>', "&gt;");
        assert h[1..] == [];
      } else {
        ReplaceAbsent(h, '>', "&gt;");
      }
    }
  }

  /** Replacing a character that does not occur changes nothing. */
  lemma {:induction false} ReplaceAbsent(h: string, c: char, rep: string)
    requires Lacks(h, c)
    ensures ReplaceChar(h, c, rep) == h
  {
    if h != [] {
      ReplaceAbsent(h[1..], c, rep);
    }
  }

  /** Text free of ampersands comes back from its angle escaping unchanged. */
  lemma {:induction false} UnescapeAngles(s: string)
    requires Lacks(s, '&')
    ensures Unescape(EscapeAngles(s)) == s
  {
    if s != [] {
      UnescapeAngles(s[1..]);
      var t := EscapeAngles(s[1..]);
      assert EscapeAngles(s) == AngleChar(s[0]) + t;
      if s[0] == '<' {
        UnescapeEntity("&lt;", '<', t);
      } else if s[0] == '>' {
        UnescapeEntity("&gt;", '>', t);
      } else {
        UnescapePlain(s[0], t);
      }
      assert s == [s[0]] + s[1..];
    }
  }

  /** `/^https?:/i`: the text starts with "http:" or "https:" in any letter case. */
  predicate IsWebLink(s: string) {
    |s| >= 5 && Fold(s[0]) == 'h' && Fold(s[1]) == 't' && Fold(s[2]) == 't' && Fold(s[3]) == 'p' &&
    (s[4] == ':' || (|s| >= 6 && Fold(s[4]) == 's' && s[5] == ':'))
  }

  /** The ASCII case folding of a case-insensitive regular expression without
      the `u` flag (a non-ASCII character never matches an ASCII one). */
  function Fold(c: char): char {
    if IsAsciiUpper(c) then (c as int + 32) as char else c
  }

  /** Text that `fmtVal` renders as a link. */
  predicate IsLinkLike(s: string) { IsWebLink(s) || StartsWith(s, "/") }

  /** `s.split('?')[0].split('/').pop()`: the last path segment before any query. */
  function LastSegment(s: string): string {
    var path := Split(s, '?')[0];
    var segs := Split(path, '/');
    segs[|segs| - 1]
  }

  /** The anchor `fmtVal` writes: the address with its double quotes escaped,
      the name with its angle brackets escaped. */
  function Anchor(href: string, name: string): (r: string)
    ensures exists h, n :: (r == "<a href=\"" + h + "\" target=\"_blank\" rel=\"noopener\">" + n + "</a>" &&
                            Lacks(h, '"') && Lacks(n, '<') && Lacks(n, '>'))
  {
    var h := ReplaceChar(href, '"', "&quot;");
    var n := EscapeAngles(name);
    "<a href=\"" + h + "\" target=\"_blank\" rel=\"noopener\">" + n + "</a>"
  }

  /** A link of one trimmed text: site paths are resolved against the page
      origin, the file name is the last path segment, or "查看" (view). */
  function TextLink(page: Page, s: string): string {
    var abs := if StartsWith(s, "/") then page.resolve(s) else s;
    var seg := LastSegment(s);
    Anchor(abs, if seg != "" then seg else "查看")
  }

  /** The string branch of `fmtVal` on already trimmed text: a comma-separated
      list of links becomes one link per line, a single link an anchor, plain
      text is returned with its angle brackets escaped. */
  function FmtText(page: Page, s: string): string {
    if !Lacks(s, ',') && IsLinkLike(s) then Join(FmtParts(page, Split(s, ',')), "<br>")
    else FmtSingle(page, s)
  }

  /** `fmtVal` of trimmed text without a comma list: a link or escaped text. */
  function FmtSingle(page: Page, s: string): string {
    if IsLinkLike(s) then TextLink(page, s) else EscapeAngles(s)
  }

  /** `fmtVal(x.trim())` over the pieces of a comma split. A piece holds no
      comma, so the nested call takes the single-text path. */
  function FmtParts(page: Page, parts: seq<string>): (r: seq<string>)
    ensures |r| == |parts|
  {
    if parts == [] then []
    else [FmtSingle(page, JsTrim(JsTrim(parts[0])))] + FmtParts(page, parts[1..])
  }

  /** The object branch of `fmtVal`: a true `url` makes a link named by a true
      trimmed `name` or the file name; else a `value` key is shown as text;
      else the object is serialised. */
  function FmtObject(page: Page, o: Object): string {
    var url := Get(o, "url");
    if url.Some? && JsTruthy(url.value) then
      var raw := JsTrim(JsString(url.value));
      var abs := if StartsWith(raw, "/") then page.resolve(raw) else raw;
      var nm := Get(o, "name");
      var given := if nm.Some? && JsTruthy(nm.value) then JsTrim(JsString(nm.value)) else "";
      var seg := LastSegment(raw);
      Anchor(abs, if given != "" then given else if seg != "" then seg else "查看")
    else if Get(o, "value").Some? then JsString(Get(o, "value").value)
    else page.stringify(Obj(o))
  }

  /** `fmtVal(v)` for a cell of the responses table. */
  function FmtVal(page: Page, v: Json): (r: string)
    ensures v.Null? ==> r == ""
    decreases v, 1
  {
    match v
    case Null => ""
    case Arr(items) => Join(NonEmpty(FmtItems(page, items)), "<br>")
    case Obj(o) => FmtObject(page, o)
    case _ => FmtText(page, JsTrim(JsString(v)))
  }

  /** `v.map(fmtVal)` over an array's elements. */
  function FmtItems(page: Page, items: seq<Json>): (r: seq<string>)
    ensures |r| == |items|
    decreases items, 0
  {
    if items == [] then [] else [FmtVal(page, items[0])] + FmtItems(page, items[1..])
  }

  /** `.filter(Boolean)` on strings: the empty ones dropped. */
  function NonEmpty(xs: seq<string>): (r: seq<string>)
    ensures forall i :: 0 <= i < |r| ==> r[i] != ""
  {
    if xs == [] then [] else (if xs[0] == "" then [] else [xs[0]]) + NonEmpty(xs[1..])
  }

  /** Plain text (neither a web address nor a site path once trimmed) is shown
      trimmed with its angle brackets escaped, so it cannot open a tag; without
      ampersands, decoding the cell gives the trimmed text back. */
  lemma PlainTextEscaped(page: Page, s: string)
    requires !IsLinkLike(JsTrim(s))
    ensures FmtVal(page, Str(s)) == EscapeAngles(JsTrim(s))
    ensures Lacks(FmtVal(page, Str(s)), '<') && Lacks(FmtVal(page, Str(s)), '>')
    ensures Lacks(s, '&') ==> Unescape(FmtVal(page, Str(s))) == JsTrim(s)
  {
    if Lacks(s, '&') {
      TrimLacks(s, JavaScript, '&');
      UnescapeAngles(JsTrim(s));
    }
  }

  /** A single web address without commas becomes an anchor on the address
      itself, named by its last path segment, whose address cannot break out
      of its attribute. */
  lemma WebLinkAnchor(page: Page, s: string)
    requires IsWebLink(JsTrim(s)) && Lacks(JsTrim(s), ',')
    ensures FmtVal(page, Str(s)) == Anchor(JsTrim(s), if LastSegment(JsTrim(s)) != "" then LastSegment(JsTrim(s)) else "查看")
  {
    var t := JsTrim(s);
    SingleLink(page, t);
    assert FmtVal(page, Str(s)) == FmtText(page, t);
  }

  lemma SingleLink(page: Page, t: string)
    requires IsWebLink(t) && Lacks(t, ',')
    ensures FmtText(page, t) == Anchor(t, if LastSegment(t) != "" then LastSegment(t) else "查看")
  {
    assert FmtText(page, t) == FmtSingle(page, t);
    assert !StartsWith(t, "/") by { assert Fold(t[0]) == 'h'; }
  }

  /** Null renders as the empty cell, and so does an array of nulls. */
  lemma NullsRenderEmpty(page: Page, n: nat)
    ensures FmtVal(page, Arr(seq(n, _ => Null))) == ""
  {
    var items := seq(n, _ => Null);
    AllNullItems(page, items);
    NonEmptyOfEmpties(FmtItems(page, items));
  }

  lemma {:induction false} AllNullItems(page: Page, items: seq<Json>)
    requires forall i :: 0 <= i < |items| ==> items[i] == Null
    ensures forall i :: 0 <= i < |FmtItems(page, items)| ==> FmtItems(page, items)[i] == ""
  {
    if items != [] {
      AllNullItems(page, items[1..]);
    }
  }

  lemma {:induction false} NonEmptyOfEmpties(xs: seq<string>)
    requires forall i :: 0 <= i < |xs| ==> xs[i] == ""
    ensures NonEmpty(xs) == []
  {
    if xs != [] {
      NonEmptyOfEmpties(xs[1..]);
    }
  }

  // ---------------------------------------------------------------------
  // Fixed and dynamic columns

  /** The question's label contains one of the keywords. */
  predicate Mentions(q: Question, keys: seq<string>) {
    exists k :: k in keys && IsSubstring(k, q.text)
  }

  /** The position of the first question whose label contains a keyword. */
  function FirstMentioning(fields: seq<Question>, keys: seq<string>): (r: Option<nat>)
    ensures r.None? ==> forall i :: 0 <= i < |fields| ==> !Mentions(fields[i], keys)
    ensures r.Some? ==> r.value < |fields| && Mentions(fields[r.value], keys)
    ensures r.Some? ==> forall j :: 0 <= j < r.value ==> !Mentions(fields[j], keys)
  {
    if fields == [] then None
    else if Mentions(fields[0], keys) then Some(0)
    else
      var r := FirstMentioning(fields[1..], keys);
      if r.None? then None else Some(r.value + 1)
  }

  /** `fid(keys)`: the id of the first question whose label contains one of
      the keywords; None when there is none (JavaScript's null). */
  function FieldWith(fields: seq<Question>, keys: seq<string>): Option<string> {
    var i := FirstMentioning(fields, keys);
    if i.Some? then fields[i.value].id else None
  }

  /** The ten recognised columns of `getFixedFieldIds`. */
  datatype Fixed = Fixed(name: Option<string>, phone: Option<string>, email: Option<string>,
                         group: Option<string>, event: Option<string>,
                         startDate: Option<string>, startTime: Option<string>,
                         endDate: Option<string>, endTime: Option<string>, people: Option<string>)

  /** `getFixedFieldIds()` with its keyword lists. */
  function FixedFieldIds(fields: seq<Question>): Fixed {
    Fixed(
      FieldWith(fields, ["姓名", "名字", "称呼", "name", "Name"]),
      FieldWith(fields, ["电话", "手机", "手机号", "联系电话", "phone", "tel", "联系方式", "電話"]),
      FieldWith(fields, ["邮箱", "电子邮箱", "email", "Email", "郵箱"]),
      FieldWith(fields, ["团体", "团队", "单位", "公司", "学校", "组织", "小组", "group"]),
      FieldWith(fields, ["活动名", "活动名称", "活动", "课程", "会议", "event"]),
      FieldWith(fields, ["开始日期", "起始日期", "start date"]),
      FieldWith(fields, ["开始时间", "start time"]),
      FieldWith(fields, ["结束日期", "截止日期", "end date"]),
      FieldWith(fields, ["结束时间", "end time"]),
      FieldWith(fields, ["人数", "参与人数", "报名人数", "人数（人）", "participants"]))
  }

  /** A matched id counts when it is a non-empty text (`filter(Boolean)`). */
  predicate Matched(id: Option<string>) { id.Some? && id.value != "" }

  function Ids(fx: Fixed): seq<Option<string>> {
    [fx.name, fx.phone, fx.email, fx.group, fx.event,
     fx.startDate, fx.startTime, fx.endDate, fx.endTime, fx.people]
  }

  /** `new Set(Object.values(fixed).filter(Boolean))`. */
  function Excluded(fx: Fixed): (r: set<string>)
    ensures forall i :: 0 <= i < 10 && Matched(Ids(fx)[i]) ==> Ids(fx)[i].value in r
    ensures forall x :: x in r ==> x != ""
  {
    set i | 0 <= i < 10 && Matched(Ids(fx)[i]) :: Ids(fx)[i].value
  }

  /** The ids of the dynamic columns: every question whose id is not an
      excluded one, in schema order (an absent id is never excluded). */
  function DynamicIds(fields: seq<Question>, ex: set<string>): (r: seq<Option<string>>)
    ensures |r| <= |fields|
    ensures forall i :: 0 <= i < |r| ==> r[i].None? || r[i].value !in ex
  {
    if fields == [] then []
    else
      var id := fields[0].id;
      (if id.Some? && id.value in ex then [] else [id]) + DynamicIds(fields[1..], ex)
  }

  /** Filtering keeps schema order: the dynamic ids of two runs of questions
      are those of the first followed by those of the second. */
  lemma {:induction false} DynamicIdsAppend(a: seq<Question>, b: seq<Question>, ex: set<string>)
    ensures DynamicIds(a + b, ex) == DynamicIds(a, ex) + DynamicIds(b, ex)
  {
    if a == [] {
      assert a + b == b;
    } else {
      assert (a + b)[0] == a[0];
      assert (a + b)[1..] == a[1..] + b;
      DynamicIdsAppend(a[1..], b, ex);
    }
  }

  predicate HasId(fields: seq<Question>, id: Option<string>) {
    exists i :: 0 <= i < |fields| && fields[i].id == id
  }

  /** A question is a dynamic column exactly when its id is not excluded. */
  lemma {:induction false} DynamicIdsExactly(fields: seq<Question>, ex: set<string>, id: Option<string>)
    ensures id in DynamicIds(fields, ex) <==> (id.None? || id.value !in ex) && HasId(fields, id)
  {
    if fields != [] {
      DynamicIdsExactly(fields[1..], ex, id);
      var r := DynamicIds(fields, ex);
      if (id.None? || id.value !in ex) && fields[0].id == id {
        assert r[0] == id;
      }
      if HasId(fields[1..], id) {
        var i :| 0 <= i < |fields[1..]| && fields[1..][i].id == id;
        assert fields[i + 1].id == id;
      }
      if HasId(fields, id) {
        var i :| 0 <= i < |fields| && fields[i].id == id;
        if i > 0 {
          assert fields[1..][i - 1].id == id;
        }
      }
    }
  }

  /** The columns the header can show before the dynamic ones. */
  datatype Heading = IdCol | NameCol | PhoneCol | EmailCol | GroupCol | EventCol | StartCol | EndCol | PeopleCol

  /** The text of a fixed heading. */
  function Title(h: Heading): string {
    match h
    case IdCol => "ID"
    case NameCol => "姓名"
    case PhoneCol => "电话"
    case EmailCol => "邮箱"
    case GroupCol => "团体"
    case EventCol => "活动名"
    case StartCol => "开始"
    case EndCol => "结束"
    case PeopleCol => "人数"
  }

  /** Whether `rebuildRespHeader` keeps a fixed heading: ID always, the others
      when their column was recognised (start and end by date or time). */
  predicate Kept(fx: Fixed, h: Heading) {
    match h
    case IdCol => true
    case NameCol => Matched(fx.name)
    case PhoneCol => Matched(fx.phone)
    case EmailCol => Matched(fx.email)
    case GroupCol => Matched(fx.group)
    case EventCol => Matched(fx.event)
    case StartCol => Matched(fx.startDate) || Matched(fx.startTime)
    case EndCol => Matched(fx.endDate) || Matched(fx.endTime)
    case PeopleCol => Matched(fx.people)
  }

  const AllHeadings := [IdCol, NameCol, PhoneCol, EmailCol, GroupCol, EventCol, StartCol, EndCol, PeopleCol]

  /** The nine fixed headings with the unrecognised ones spliced out. */
  function Pruned(fx: Fixed, hs: seq<Heading>): (r: seq<Heading>)
    ensures |r| <= |hs|
  {
    if hs == [] then [] else (if Kept(fx, hs[0]) then [hs[0]] else []) + Pruned(fx, hs[1..])
  }

  function Before(fx: Fixed): seq<Heading> { Pruned(fx, AllHeadings) }

  /** A fixed heading is shown exactly when it is kept. */
  lemma {:induction false} PrunedExactly(fx: Fixed, hs: seq<Heading>, h: Heading)
    ensures h in Pruned(fx, hs) <==> h in hs && Kept(fx, h)
  {
    if hs != [] {
      PrunedExactly(fx, hs[1..], h);
      var head := if Kept(fx, hs[0]) then [hs[0]] else [];
      assert Pruned(fx, hs) == head + Pruned(fx, hs[1..]);
      assert h in hs <==> h == hs[0] || h in hs[1..];
    }
  }

  /** The five trailing headings: status, review note, export, send mail, delete. */
  const After := ["状态", "审核说明", "导出", "发送邮件", "删除"]

  function Titles(hs: seq<Heading>): (r: seq<string>)
    ensures |r| == |hs|
  {
    if hs == [] then [] else [Title(hs[0])] + Titles(hs[1..])
  }

  /** The first question with the given id (`find(x => x.id === fid)`). */
  function FindById(fields: seq<Question>, id: Option<string>): (r: Option<Question>)
    ensures r.Some? ==> r.value in fields && r.value.id == id
    ensures r.None? ==> forall i :: 0 <= i < |fields| ==> fields[i].id != id
  {
    if fields == [] then None
    else if fields[0].id == id then Some(fields[0])
    else FindById(fields[1..], id)
  }

  /** JavaScript's `'' + id`. */
  function IdText(id: Option<string>): string {
    if id.Some? then id.value else "undefined"
  }

  /** The heading of a dynamic column: the escaped label of the first question
      with that id, or "字段" (field) and the id. */
  function DynamicHeading(fields: seq<Question>, id: Option<string>): string {
    var q := FindById(fields, id);
    var t := if q.Some? then q.value.text else "";
    EscapeHtml(if t != "" then t else "字段" + IdText(id))
  }

  function DynamicHeadings(fields: seq<Question>, ids: seq<Option<string>>): (r: seq<string>)
    ensures |r| == |ids|
  {
    if ids == [] then [] else [DynamicHeading(fields, ids[0])] + DynamicHeadings(fields, ids[1..])
  }

  /** `rebuildRespHeader()`: the heading cells of the responses table. */
  function Header(fields: seq<Question>): seq<string> {
    HeaderOf(fields, FixedFieldIds(fields))
  }

  /** The heading cells for a given set of recognised columns. */
  function HeaderOf(fields: seq<Question>, fx: Fixed): seq<string> {
    Titles(Before(fx)) + DynamicHeadings(fields, DynamicIds(fields, Excluded(fx))) + After
  }

  /** The header is the kept fixed headings, then one heading per dynamic
      column, then the five trailing ones; ID is always first. */
  lemma HeaderLayout(fields: seq<Question>, fx: Fixed)
    ensures var b := Titles(Before(fx));
      var dyn := DynamicIds(fields, Excluded(fx));
      var r := HeaderOf(fields, fx);
      && |r| == |b| + |dyn| + 5
      && r[..|b|] == b
      && r[|r| - 5..] == After
      && r[0] == "ID"
  {
    var b := Titles(Before(fx));
    var m := DynamicHeadings(fields, DynamicIds(fields, Excluded(fx)));
    assert HeaderOf(fields, fx) == b + m + After;
    assert (b + m + After)[..|b|] == b;
    assert (b + m + After)[|b| + |m|..] == After;
    assert Before(fx)[0] == IdCol;
  }

  /** A fixed heading appears exactly when its column was recognised. */
  lemma BeforeHeadings(fx: Fixed, h: Heading)
    ensures h in Before(fx) <==> Kept(fx, h)
  {
    PrunedExactly(fx, AllHeadings, h);
    assert h in AllHeadings by {
      match h
      case IdCol => assert AllHeadings[0] == h;
      case NameCol => assert AllHeadings[1] == h;
      case PhoneCol => assert AllHeadings[2] == h;
      case EmailCol => assert AllHeadings[3] == h;
      case GroupCol => assert AllHeadings[4] == h;
      case EventCol => assert AllHeadings[5] == h;
      case StartCol => assert AllHeadings[6] == h;
      case EndCol => assert AllHeadings[7] == h;
      case PeopleCol => assert AllHeadings[8] == h;
    }
  }

  /** A question recognised as a fixed column is not repeated as a dynamic one. */
  lemma FixedNotDynamic(fields: seq<Question>, i: nat)
    requires i < 10
    ensures var fx := FixedFieldIds(fields);
      Matched(Ids(fx)[i]) ==> Ids(fx)[i] !in DynamicIds(fields, Excluded(fx))
  {
    var fx := FixedFieldIds(fields);
    DynamicIdsExactly(fields, Excluded(fx), Ids(fx)[i]);
  }

  /** Every question whose id is not a recognised one has its own column. */
  lemma OthersAreDynamic(fields: seq<Question>, q: Question)
    requires q in fields
    requires forall i :: 0 <= i < 10 ==> !Matched(Ids(FixedFieldIds(fields))[i]) || Ids(FixedFieldIds(fields))[i] != q.id
    ensures q.id in DynamicIds(fields, Excluded(FixedFieldIds(fields)))
  {
    var fx := FixedFieldIds(fields);
    var k :| 0 <= k < |fields| && fields[k] == q;
    assert HasId(fields, q.id);
    DynamicIdsExactly(fields, Excluded(fx), q.id);
  }
}
