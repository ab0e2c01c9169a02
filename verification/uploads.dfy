/** Form posts with file fields in app.py: the upload policy a form's schema
    sets, which uploaded files are kept, and the two handlers that store them,
    `public_submit` (a submission) and `save_public_draft` (a resumable
    draft). A request's form and file parts are multi-valued and ordered, so
    both are lists of key/value pairs; each upload carries the unique file
    name the handler would derive from the clock and a random UUID. */
module Uploads {
  import opened Results
  import opened Text
  import opened JsonValues
  import opened Review
  import opened Tenant

  // ---------------------------------------------------------------------
  // Multi-valued request parts

  /** A multi-valued request part (`request.form` or `request.files`), in arrival order. */
  type Multi<V> = Entries<V>

  /** One uploaded file: the name the browser sent and the unique name the
      server stores it under. */
  datatype Upload = Upload(filename: string, stored: string)

  predicate NoDup(ks: seq<string>) {
    forall i, j :: 0 <= i < j < |ks| ==> ks[i] != ks[j]
  }

  /** The distinct keys of a multi-valued part, in order of first appearance
      (iterating over a `MultiDict`). */
  function UniqueKeys<V>(items: Multi<V>): (ks: seq<string>)
    ensures NoDup(ks)
    ensures forall k :: k in ks <==> k in Keys(items)
    decreases |items|
  {
    if items == [] then []
    else
      var k := items[0].0;
      var rest := Remove(items[1..], k);
      var ks := UniqueKeys(rest);
      assert k !in Keys(rest);
      assert forall x :: x in Keys(items) <==> x == k || x in Keys(items[1..]);
      [k] + ks
  }

  /** `getlist(k)`: every value sent under `k`, in order. */
  function GetList<V(!new)>(items: Multi<V>, k: string): (r: seq<V>)
    ensures |r| <= |items|
    ensures forall v :: v in r <==> (k, v) in items
  {
    if items == [] then []
    else (if items[0].0 == k then [items[0].1] else []) + GetList(items[1..], k)
  }

  /** `getlist` keeps the order in which the values were sent: it splits
      over concatenation, and one entry contributes its value exactly when
      it carries the key. */
  lemma {:induction false} GetListAppend<V(!new)>(a: Multi<V>, b: Multi<V>, k: string)
    ensures GetList(a + b, k) == GetList(a, k) + GetList(b, k)
    decreases |a|
  {
    if a == [] {
      assert a + b == b;
    } else {
      assert (a + b)[0] == a[0];
      assert (a + b)[1..] == a[1..] + b;
      GetListAppend(a[1..], b, k);
    }
  }

  lemma GetListOne<V(!new)>(k': string, v: V, k: string)
    ensures GetList([(k', v)], k) == if k' == k then [v] else []
  {
  }

  /** `to_dict()`: the first value sent under each key, as JSON strings. */
  function ToDict(items: Multi<string>): (d: Object)
    ensures forall k :: Get(d, k) == if Get(items, k).Some? then Some(Str(Get(items, k).value)) else None
    decreases |items|
  {
    if items == [] then []
    else
      var k := items[0].0;
      [(k, Str(items[0].1))] + ToDict(Remove(items[1..], k))
  }

  // ---------------------------------------------------------------------
  // Upload policy

  /** The upload limits a form's schema sets: how many files a field keeps
      and which extensions are allowed (none listed: every extension). */
  datatype Policy = Policy(maxFiles: int, allowed: set<string>)

  /** `schema.get("upload") or (schema.get("settings") or {}).get("upload") or {}`,
      followed by `.get`: a true value that is not a dictionary raises. */
  function UploadConfig(schema: Object): (r: Result<Object>)
    ensures GetOrNull(schema, "upload").Obj? && PyTruthy(GetOrNull(schema, "upload")) ==>
      r == Ok(GetOrNull(schema, "upload").entries)
    ensures PyTruthy(GetOrNull(schema, "upload")) && !GetOrNull(schema, "upload").Obj? ==> r == Err(Crash)
    ensures !PyTruthy(GetOrNull(schema, "upload")) && !PyTruthy(GetOrNull(schema, "settings")) ==> r == Ok([])
    ensures var settings := GetOrNull(schema, "settings");
      !PyTruthy(GetOrNull(schema, "upload")) && PyTruthy(settings) && !settings.Obj? ==> r == Err(Crash)
    ensures !PyTruthy(GetOrNull(schema, "upload")) && GetOrNull(schema, "settings").Obj? ==>
      var nested := GetOrNull(GetOrNull(schema, "settings").entries, "upload");
      && (nested.Obj? ==> r == Ok(nested.entries))
      && (!PyTruthy(nested) ==> r == Ok([]))
      && (PyTruthy(nested) && !nested.Obj? ==> r == Err(Crash))
  {
    var up := GetOrNull(schema, "upload");
    if PyTruthy(up) then
      (if up.Obj? then Ok(up.entries) else Err(Crash))
    else
      var settings := OrEmptyObject(GetOrNull(schema, "settings"));
      if settings.Err? then Err(Crash)
      else OrEmptyObject(GetOrNull(settings.value, "upload"))
  }

  /** `int(upload_cfg.get("max_files") or 3)`. */
  function MaxFiles(cfg: Object): (r: Result<int>)
    ensures !PyTruthy(GetOrNull(cfg, "max_files")) ==> r == Ok(3)
    ensures GetOrNull(cfg, "max_files").Num? && GetOrNull(cfg, "max_files").n != 0 ==>
      r == Ok(GetOrNull(cfg, "max_files").n)
  {
    var v := GetOrNull(cfg, "max_files");
    PyInt(if PyTruthy(v) then v else Num(3))
  }

  /** The set comprehension over comma-separated pieces: each piece stripped
      and lower-cased, blank pieces dropped. */
  function TypesOf(pieces: seq<string>): set<string> {
    set x | x in pieces && PyStrip(x) != "" :: Lower(PyStrip(x))
  }

  /** No extension in the allow-list is empty, so a file without an
      extension is refused whenever a list exists. */
  lemma TypesAreNonEmpty(pieces: seq<string>, t: string)
    requires t in TypesOf(pieces)
    ensures t != ""
  {
    var x :| x in pieces && PyStrip(x) != "" && t == Lower(PyStrip(x));
    LowerNonEmpty(PyStrip(x));
  }

  lemma LowerNonEmpty(x: string)
    requires x != ""
    ensures Lower(x) != ""
  {
    assert Lower(x) == LowerChar(x[0]) + Lower(x[1..]);
  }

  /** `str(upload_cfg.get("allowed_file_types", ""))` read as a set of
      extensions: a missing key allows everything, any other value is first
      turned into text (so a JSON null reads as "None"). */
  function AllowedTypes(cfg: Object): set<string> {
    var text := match Get(cfg, "allowed_file_types")
      case None => ""
      case Some(v) => PyStr(v);
    TypesOf(Split(text, ','))
  }

  /** The policy both handlers read from a form's schema. */
  function PolicyOf(schema: Object): (r: Result<Policy>)
    ensures r.Ok? ==> UploadConfig(schema).Ok? && r.value.allowed == AllowedTypes(UploadConfig(schema).value)
    ensures r.Err? ==> r.error == Crash
  {
    var cfg := UploadConfig(schema);
    if cfg.Err? then Err(cfg.error)
    else
      var m := MaxFiles(cfg.value);
      if m.Err? then Err(m.error)
      else Ok(Policy(m.value, AllowedTypes(cfg.value)))
  }

  // ---------------------------------------------------------------------
  // File names

  /** The last path component: the text after the last '/'. */
  function BaseName(path: string): (r: string)
    ensures Lacks(r, '/')
    ensures |r| <= |path| && r == path[|path| - |r|..]
  {
    if path == [] then []
    else if path[|path| - 1] == '/' then []
    else BaseName(path[..|path| - 1]) + [path[|path| - 1]]
  }

  /** The position of the last '.' of `s`, if any. */
  function LastDot(s: string): (r: Option<nat>)
    ensures r.Some? ==> r.value < |s| && s[r.value] == '.' && Lacks(s[r.value + 1..], '.')
    ensures r.None? ==> Lacks(s, '.')
  {
    if s == [] then None
    else if s[|s| - 1] == '.' then Some(|s| - 1)
    else
      var r := LastDot(s[..|s| - 1]);
      assert s == s[..|s| - 1] + [s[|s| - 1]];
      r
  }

  /** `PurePath(path).suffix`: from the last '.' of the last component, unless
      that dot starts the name or ends it. */
  function Suffix(path: string): (r: string)
    ensures r == [] || (r[0] == '.' && |r| >= 2 && Lacks(r[1..], '.') && Lacks(r, '/'))
  {
    var name := BaseName(path);
    match LastDot(name)
    case None => ""
    case Some(i) => if 0 < i < |name| - 1 then name[i..] else ""
  }

  /** `s.lstrip(".")`. */
  function StripLeadingDots(s: string): (r: string)
    ensures r == [] || r[0] != '.'
  {
    if s != [] && s[0] == '.' then StripLeadingDots(s[1..]) else s
  }

  /** `Path(filename).suffix.lower().lstrip(".")`: the extension compared with the allow-list. */
  function Extension(filename: string): string {
    StripLeadingDots(Lower(Suffix(filename)))
  }

  /** The extension of "stem.ext" (no '/' or '.' in `ext`, a non-empty stem) is
      `ext` lower-cased: only the text after the last dot counts. */
  lemma ExtensionOfName(stem: string, ext: string)
    requires stem != [] && Lacks(stem, '/') && ext != [] && Lacks(ext, '.') && Lacks(ext, '/')
    requires forall i :: 0 <= i < |ext| ==> ext[i] as int < 128
    ensures Extension(stem + "." + ext) == Lower(ext)
  {
    SuffixOfName(stem, ext);
    LowerDotExt(ext);
    LowerExtHead(ext);
    StripOneDot(Lower(ext));
  }

  lemma SuffixOfName(stem: string, ext: string)
    requires stem != [] && Lacks(stem, '/') && ext != [] && Lacks(ext, '.') && Lacks(ext, '/')
    ensures Suffix(stem + "." + ext) == "." + ext
  {
    var path := stem + "." + ext;
    BaseNameOfName(stem, ext);
    LastDotOfName(stem, ext);
    SuffixAt(path, |stem|);
    DotExtTail(stem, ext);
  }

  lemma SuffixAt(path: string, i: nat)
    requires BaseName(path) == path && LastDot(path) == Some(i) && 0 < i < |path| - 1
    ensures Suffix(path) == path[i..]
  {
  }

  lemma DotExtTail(stem: string, ext: string)
    ensures (stem + "." + ext)[|stem|..] == "." + ext
  {
  }

  lemma BaseNameOfName(stem: string, ext: string)
    requires Lacks(stem, '/') && Lacks(ext, '/')
    ensures BaseName(stem + "." + ext) == stem + "." + ext
  {
    NoSlashInName(stem, ext);
    BaseNameNoSlash(stem + "." + ext);
  }

  lemma NoSlashInName(stem: string, ext: string)
    requires Lacks(stem, '/') && Lacks(ext, '/')
    ensures Lacks(stem + "." + ext, '/')
  {
    var path := stem + "." + ext;
    forall i | 0 <= i < |path|
      ensures path[i] != '/'
    {
      if i < |stem| {
        assert path[i] == stem[i];
      } else if i > |stem| {
        assert path[i] == ext[i - |stem| - 1];
      }
    }
  }

  lemma LowerDotExt(ext: string)
    requires ext != [] && Lacks(ext, '.')
    requires forall i :: 0 <= i < |ext| ==> ext[i] as int < 128
    ensures Lower("." + ext) == "." + Lower(ext)
  {
    LowerCons('.', ext);
  }

  lemma LowerExtHead(ext: string)
    requires ext != [] && Lacks(ext, '.')
    requires forall i :: 0 <= i < |ext| ==> ext[i] as int < 128
    ensures Lower(ext) != [] && Lower(ext)[0] != '.'
  {
    var c := ext[0];
    assert c != '.' by { assert c in ext; }
    assert LowerChar(c) == if IsAsciiUpper(c) then [(c as int + 32) as char] else [c];
    assert Lower(ext) == LowerChar(c) + Lower(ext[1..]);
  }

  lemma StripOneDot(x: string)
    requires x != [] && x[0] != '.'
    ensures StripLeadingDots("." + x) == x
  {
    assert ("." + x)[1..] == x;
  }

  lemma {:induction false} BaseNameNoSlash(path: string)
    requires forall i :: 0 <= i < |path| ==> path[i] != '/'
    ensures BaseName(path) == path
  {
    if path != [] {
      BaseNameNoSlash(path[..|path| - 1]);
      assert path == path[..|path| - 1] + [path[|path| - 1]];
    }
  }

  lemma {:induction false} LastDotOfName(stem: string, ext: string)
    requires Lacks(ext, '.')
    ensures LastDot(stem + "." + ext) == Some(|stem|)
    decreases |ext|
  {
    var s := stem + "." + ext;
    if ext == [] {
      assert s[|s| - 1] == '.';
      assert s[..|s| - 1] == stem;
    } else {
      assert s[..|s| - 1] == stem + "." + ext[..|ext| - 1];
      assert s[|s| - 1] == ext[|ext| - 1];
      LastDotOfName(stem, ext[..|ext| - 1]);
    }
  }

  // ---------------------------------------------------------------------
  // Which files are kept

  /** The per-file test: skip files without a name, and, when an allow-list
      exists, files whose extension is not on it. */
  predicate Accepts(p: Policy, u: Upload) {
    u.filename != "" && (p.allowed == {} || Extension(u.filename) in p.allowed)
  }

  /** Python's `xs[:n]`, where a negative `n` counts from the end. */
  function PySliceTo<T>(xs: seq<T>, n: int): (r: seq<T>)
    ensures |r| <= |xs| && r == xs[..|r|]
    ensures n >= 0 ==> |r| == if n < |xs| then n else |xs|
    ensures n < 0 ==> |r| == if |xs| + n > 0 then |xs| + n else 0
  {
    if n >= 0 then (if n < |xs| then xs[..n] else xs)
    else if |xs| + n > 0 then xs[..|xs| + n] else []
  }

  /** The files of a list that pass the per-file test, in order. */
  function Keep(p: Policy, xs: seq<Upload>): (r: seq<Upload>)
    ensures |r| <= |xs|
    ensures forall i :: 0 <= i < |r| ==> Accepts(p, r[i]) && r[i] in xs
    ensures forall u :: u in xs && Accepts(p, u) ==> u in r
  {
    if xs == [] then []
    else (if Accepts(p, xs[0]) then [xs[0]] else []) + Keep(p, xs[1..])
  }

  lemma {:induction false} KeepAppend(p: Policy, a: seq<Upload>, b: seq<Upload>)
    ensures Keep(p, a + b) == Keep(p, a) + Keep(p, b)
  {
    if a == [] {
      assert a + b == b;
    } else {
      var head := if Accepts(p, a[0]) then [a[0]] else [];
      assert (a + b)[0] == a[0] && (a + b)[1..] == a[1..] + b;
      KeepAppend(p, a[1..], b);
      calc {
        Keep(p, a + b);
        head + Keep(p, a[1..] + b);
        head + (Keep(p, a[1..]) + Keep(p, b));
        (head + Keep(p, a[1..])) + Keep(p, b);
      }
    }
  }

  /** The files `public_submit` keeps for one field: the first `maxFiles`
      uploads are taken, and the test is applied to those only. */
  function Accepted(p: Policy, files: seq<Upload>): (r: seq<Upload>)
    ensures p.maxFiles >= 0 ==> |r| <= p.maxFiles
    ensures forall i :: 0 <= i < |r| ==> Accepts(p, r[i]) && r[i] in files
  {
    Keep(p, PySliceTo(files, p.maxFiles))
  }

  /** Files refused by the allow-list still use up the quota: with a limit of
      two and uploads [ok, refused, ok], only the first file is kept, although
      two acceptable files were sent. */
  lemma RefusedFilesUseQuota(p: Policy, a: Upload, b: Upload, c: Upload)
    requires p.maxFiles == 2 && Accepts(p, a) && !Accepts(p, b) && Accepts(p, c)
    ensures Accepted(p, [a, b, c]) == [a]
    ensures |Keep(p, [a, b, c])| == 2
  {
    assert PySliceTo([a, b, c], 2) == [a, b];
    assert Keep(p, [c]) == [c];
    assert Keep(p, [b]) == [];
    assert [a, b, c][1..] == [b, c] && [b, c][1..] == [c] && [a, b][1..] == [b];
    assert Keep(p, [b, c]) == [c];
    assert Keep(p, [a, b]) == [a];
  }

  /** Where a stored file is served from. */
  function UrlFor(site: string, u: Upload): string {
    "/site/" + site + "/uploads/" + u.stored
  }

  function Urls(site: string, us: seq<Upload>): (r: seq<string>)
    ensures |r| == |us|
    ensures forall i :: 0 <= i < |us| ==> r[i] == UrlFor(site, us[i])
  {
    seq(|us|, i requires 0 <= i < |us| => UrlFor(site, us[i]))
  }

  // ---------------------------------------------------------------------
  // public_submit

  /** The URLs one file field contributes to a submission. */
  function SavedUrls(p: Policy, site: string, files: Multi<Upload>, field: string): seq<string> {
    Urls(site, Accepted(p, GetList(files, field)))
  }

  /** The loop over file fields of `public_submit`. */
  function AttachFiles(p: Policy, site: string, data: Object, files: Multi<Upload>, fields: seq<string>): Object
    decreases |fields|
  {
    if fields == [] then data
    else
      var urls := SavedUrls(p, site, files, fields[0]);
      var d := if urls != [] then Put(data, fields[0], StrArr(urls)) else data;
      AttachFiles(p, site, d, files, fields[1..])
  }

  /** A field that kept at least one file gets its list of URLs, replacing a
      form value of the same name; every other key keeps what it had. */
  lemma {:induction false} AttachFilesGet(p: Policy, site: string, data: Object, files: Multi<Upload>,
                                          fields: seq<string>, k: string)
    ensures Get(AttachFiles(p, site, data, files, fields), k)
         == if k in fields && SavedUrls(p, site, files, k) != [] then Some(StrArr(SavedUrls(p, site, files, k)))
            else Get(data, k)
    decreases |fields|
  {
    if fields != [] {
      var urls := SavedUrls(p, site, files, fields[0]);
      var d := if urls != [] then Put(data, fields[0], StrArr(urls)) else data;
      AttachFilesGet(p, site, d, files, fields[1..], k);
      assert k in fields <==> k == fields[0] || k in fields[1..];
    }
  }

  /** A tenant's tables, keyed by schema name. */
  type Tables = map<string, Store>

  /** A table `CREATE TABLE IF NOT EXISTS` has just made. */
  const EmptyStore := Store(map[], 1)

  predicate ValidTables(t: Tables) { forall s :: s in t ==> ValidStore(t[s]) }

  /** Both handlers' first steps: the registry row of the site (404 without
      one), its schema as a dictionary, and the upload policy it sets. */
  function LoadPolicy(forms: map<string, Json>, site: string, parse: string -> Option<Json>): (r: Result<Policy>)
    ensures site !in forms ==> r == Err(NotFound)
    ensures r.Err? ==> r.error == NotFound || r.error == Crash
    ensures site in forms && forms[site].Obj? ==> r == PolicyOf(forms[site].entries)
    ensures site in forms && forms[site].Str? && forms[site].s != "" ==>
      match parse(forms[site].s)
      case Some(Obj(e)) => r == PolicyOf(e)
      case _ => r == Err(Crash)
  {
    if site !in forms then Err(NotFound)
    else
      var obj := StoredObject(forms[site], parse);
      if obj.Err? then Err(obj.error) else PolicyOf(obj.value)
  }

  /** The INSERT into `"<schema>".submissions`, creating the table when missing. */
  function InsertInto(tables: Tables, schema: string, data: Object): (r: (Tables, int))
    requires ValidTables(tables)
    ensures ValidTables(r.0)
    ensures r.0.Keys == tables.Keys + {schema}
    ensures forall s :: s in tables && s != schema ==> r.0[s] == tables[s]
    ensures schema in tables ==> r.1 !in tables[schema].rows
    ensures r.1 in r.0[schema].rows && r.0[schema].rows[r.1] == Submission(data, Pending, None)
  {
    var st := if schema in tables then tables[schema] else EmptyStore;
    var ins := Insert(st, data);
    (tables[schema := ins.0], ins.1)
  }

  /** `public_submit`: a form without a registry row answers 404; otherwise
      the submission (form values plus the URLs of kept files) is inserted,
      pending, into the submissions table of the site's derived schema. */
  function PublicSubmit(forms: map<string, Json>, parse: string -> Option<Json>, tables: Tables, site: string,
                        form: Multi<string>, files: Multi<Upload>): (r: Result<(Tables, int)>)
    requires ValidTables(tables)
    ensures r.Ok? <==> LoadPolicy(forms, site, parse).Ok?
    ensures site !in forms ==> r == Err(NotFound)
    ensures r.Ok? ==> var schema := SafeSchema(site);
      && ValidTables(r.value.0)
      && r.value.0.Keys == tables.Keys + {schema}
      && (forall s :: s in tables && s != schema ==> r.value.0[s] == tables[s])
      && r.value.1 in r.value.0[schema].rows
      && r.value.0[schema].rows[r.value.1].status == Pending
  {
    var p := LoadPolicy(forms, site, parse);
    if p.Err? then Err(p.error)
    else Ok(InsertInto(tables, SafeSchema(site), AttachFiles(p.value, site, ToDict(form), files, UniqueKeys(files))))
  }

  /** What a submission records: each file field that kept a file holds
      exactly the URLs of the kept files, at most `max_files` of them; every
      other field holds the first value the form sent under its name. */
  lemma SubmissionData(p: Policy, site: string, form: Multi<string>, files: Multi<Upload>, k: string)
    ensures var d := AttachFiles(p, site, ToDict(form), files, UniqueKeys(files));
      var urls := SavedUrls(p, site, files, k);
      && (urls != [] ==> Get(d, k) == Some(StrArr(urls)) && (p.maxFiles >= 0 ==> |urls| <= p.maxFiles))
      && (urls == [] ==> Get(d, k) == if Get(form, k).Some? then Some(Str(Get(form, k).value)) else None)
  {
    var urls := SavedUrls(p, site, files, k);
    AttachFilesGet(p, site, ToDict(form), files, UniqueKeys(files), k);
    if urls != [] {
      var v := GetList(files, k)[0];
      assert v in GetList(files, k);
      KeyOfPair(files, k, v);
    }
  }

  lemma KeyOfPair<V>(items: Multi<V>, k: string, v: V)
    requires (k, v) in items
    ensures k in Keys(items)
  {
    var i :| 0 <= i < |items| && items[i] == (k, v);
    assert Keys(items)[i] == k;
  }

  // ---------------------------------------------------------------------
  // save_public_draft

  /** The hidden form field carrying a draft's token. */
  const TokenField := "__draft_token"

  /** The prefix of hidden form fields that carry the URLs a draft already holds. */
  const UploadedPrefix := "__uploaded__"

  /** Form keys the draft handler consumes instead of storing as data. */
  predicate Reserved(k: string) {
    k == TokenField || StartsWith(k, UploadedPrefix)
  }

  /** `data.pop(k, None)` for the token and for every `__uploaded__` key. */
  function DropReserved(d: Object): (r: Object)
    ensures forall k :: Get(r, k) == if Reserved(k) then None else Get(d, k)
  {
    if d == [] then []
    else if Reserved(d[0].0) then DropReserved(d[1..])
    else
      var rest := DropReserved(d[1..]);
      assert ([d[0]] + rest)[1..] == rest;
      [d[0]] + rest
  }

  /** The token a draft is saved under: the first token the form sent, or a
      fresh one when it sent none or an empty one. */
  function DraftToken(form: Multi<string>, newToken: string): (r: string)
    ensures Get(form, TokenField).Some? && Get(form, TokenField).value != "" ==> r == Get(form, TokenField).value
    ensures (Get(form, TokenField).None? || Get(form, TokenField).value == "") ==> r == newToken
  {
    match Get(form, TokenField)
    case Some(t) => if t != "" then t else newToken
    case None => newToken
  }

  /** The fields named by the `__uploaded__<field>` keys, in the order of the keys. */
  function UploadedFields(keys: seq<string>): (fs: seq<string>)
    ensures forall f :: f in fs <==> UploadedPrefix + f in keys
  {
    if keys == [] then []
    else
      var k := keys[0];
      var rest := UploadedFields(keys[1..]);
      assert forall x :: x in keys <==> x == k || x in keys[1..];
      if StartsWith(k, UploadedPrefix) then
        var f := k[|UploadedPrefix|..];
        assert UploadedPrefix + f == k;
        PrefixInjective(f);
        [f] + rest
      else
        PrefixForm(k);
        rest
  }

  lemma {:induction false} UploadedFieldsAppend(a: seq<string>, b: seq<string>)
    ensures UploadedFields(a + b) == UploadedFields(a) + UploadedFields(b)
    decreases |a|
  {
    if a == [] {
      assert a + b == b;
    } else {
      assert (a + b)[0] == a[0];
      assert (a + b)[1..] == a[1..] + b;
      UploadedFieldsAppend(a[1..], b);
    }
  }

  /** `uploaded_map`: for every form key `__uploaded__<field>`, all its values,
      under `<field>`. The loop assigns the keys in form order, so over
      distinct keys the fields appear in that order. */
  function UploadedMap(form: Multi<string>, keys: seq<string>): (r: Entries<seq<string>>)
    ensures forall f :: Get(r, f).Some? ==> UploadedPrefix + f in keys
    ensures forall f :: UploadedPrefix + f in keys ==> Get(r, f) == Some(GetList(form, UploadedPrefix + f))
    ensures NoDup(keys) ==> Keys(r) == UploadedFields(keys)
    decreases |keys|
  {
    if keys == [] then []
    else
      var init := keys[..|keys| - 1];
      var k := keys[|keys| - 1];
      assert keys == init + [k];
      assert forall x :: x in keys <==> x in init || x == k;
      assert NoDup(keys) ==> NoDup(init) && k !in init;
      var rest := UploadedMap(form, init);
      UploadedFieldsAppend(init, [k]);
      if StartsWith(k, UploadedPrefix) then
        var f := k[|UploadedPrefix|..];
        assert UploadedPrefix + f == k;
        PrefixInjective(f);
        assert UploadedFields([k]) == [f];
        PutKeys(rest, f, GetList(form, k));
        Put(rest, f, GetList(form, k))
      else
        PrefixForm(k);
        assert UploadedFields([k]) == [];
        rest
  }

  /** Two uploaded fields come out in the order the form sent them. */
  lemma UploadedMapInFormOrder()
    ensures UploadedMap([("__uploaded__a", "x"), ("__uploaded__b", "y")], ["__uploaded__a", "__uploaded__b"])
            == [("a", ["x"]), ("b", ["y"])]
  {
    var form: Multi<string> := [("__uploaded__a", "x"), ("__uploaded__b", "y")];
    var ka := "__uploaded__a";
    var kb := "__uploaded__b";
    assert StartsWith(ka, UploadedPrefix) && ka[|UploadedPrefix|..] == "a";
    assert StartsWith(kb, UploadedPrefix) && kb[|UploadedPrefix|..] == "b";
    assert [ka, kb][..1] == [ka];
    assert GetList(form, ka) == ["x"];
    assert GetList(form, kb) == ["y"];
    assert UploadedMap(form, [ka]) == [("a", ["x"])];
  }

  lemma PrefixInjective(f: string)
    ensures forall g :: UploadedPrefix + g == UploadedPrefix + f ==> g == f
  {
    forall g | UploadedPrefix + g == UploadedPrefix + f
      ensures g == f
    {
      assert g == (UploadedPrefix + g)[|UploadedPrefix|..];
      assert f == (UploadedPrefix + f)[|UploadedPrefix|..];
    }
  }

  lemma PrefixForm(k: string)
    requires !StartsWith(k, UploadedPrefix)
    ensures forall f :: UploadedPrefix + f != k
  {
    forall f
      ensures UploadedPrefix + f != k
    {
      assert StartsWith(UploadedPrefix + f, UploadedPrefix);
    }
  }

  /** The URLs of the kept files name exactly the accepted uploads. */
  lemma KeptUrls(p: Policy, site: string, xs: seq<Upload>)
    ensures var r := Urls(site, Keep(p, xs));
      && (forall url :: url in r ==> exists u :: u in xs && Accepts(p, u) && url == UrlFor(site, u))
      && (forall u :: u in xs && Accepts(p, u) ==> UrlFor(site, u) in r)
  {
    var kept := Keep(p, xs);
    var r := Urls(site, kept);
    forall url | url in r ensures exists u :: u in xs && Accepts(p, u) && url == UrlFor(site, u) {
      var i :| 0 <= i < |r| && r[i] == url;
      var u := kept[i];
      assert u in xs && Accepts(p, u) && url == UrlFor(site, u);
    }
    forall u | u in xs && Accepts(p, u) ensures UrlFor(site, u) in r {
      var j :| 0 <= j < |kept| && kept[j] == u;
      assert r[j] == UrlFor(site, u);
    }
  }

  /** One file field of a draft: keep the URLs it already holds and, while
      under the limit, add the kept files among the first `max_files - held`
      new uploads. A field already at the limit is left as it was. */
  function DraftField(p: Policy, site: string, held: Option<seq<string>>, files: seq<Upload>): (r: Option<seq<string>>)
    ensures var urls := held.GetOr([]);
      if |urls| >= p.maxFiles then r == held
      else r.Some? && |urls| <= |r.value| <= p.maxFiles && r.value[..|urls|] == urls
    ensures var urls := held.GetOr([]);
      var n := if p.maxFiles - |urls| < |files| then p.maxFiles - |urls| else |files|;
      |urls| < p.maxFiles ==>
        && r.Some?
        && (forall url :: url in r.value[|urls|..] ==>
              exists u :: u in files[..n] && Accepts(p, u) && url == UrlFor(site, u))
        && (forall u :: u in files[..n] && Accepts(p, u) ==> UrlFor(site, u) in r.value[|urls|..])
  {
    var urls := held.GetOr([]);
    var remain := if p.maxFiles - |urls| > 0 then p.maxFiles - |urls| else 0;
    if remain <= 0 then held
    else
      var added := Urls(site, Keep(p, PySliceTo(files, remain)));
      KeptUrls(p, site, PySliceTo(files, remain));
      assert (urls + added)[|urls|..] == added;
      Some(urls + added)
  }

  /** The loop over file fields of `save_public_draft`: each field is updated
      on its own by `DraftField`. */
  function DraftFiles(p: Policy, site: string, payload: Entries<seq<string>>, files: Multi<Upload>,
                      fields: seq<string>): (r: Entries<seq<string>>)
    requires NoDup(fields)
    ensures forall k :: k !in fields ==> Get(r, k) == Get(payload, k)
    decreases |fields|
    ensures forall k :: k in fields ==> Get(r, k) == DraftField(p, site, Get(payload, k), GetList(files, k))
  {
    if fields == [] then payload
    else
      var k := fields[0];
      var next := DraftField(p, site, Get(payload, k), GetList(files, k));
      var q := if next.Some? then Put(payload, k, next.value) else payload;
      NoDupTail(fields);
      DraftFiles(p, site, q, files, fields[1..])
  }

  lemma NoDupTail(ks: seq<string>)
    requires NoDup(ks) && ks != []
    ensures NoDup(ks[1..]) && ks[0] !in ks[1..]
  {
    assert forall i :: 0 <= i < |ks| - 1 ==> ks[1..][i] == ks[i + 1];
  }

  /** A saved draft: the form values and the URLs per file field. */
  datatype Draft = Draft(data: Object, files: Entries<seq<string>>)

  /** A tenant's drafts tables, keyed by schema name, each keyed by token. */
  type DraftTables = map<string, map<string, Draft>>

  /** The draft `save_public_draft` builds: the form values without the
      token and `__uploaded__` keys, and the URLs per file field. */
  function BuildDraft(p: Policy, site: string, form: Multi<string>, files: Multi<Upload>): (d: Draft)
    ensures forall k :: Get(d.data, k) == if Reserved(k) then None else Get(ToDict(form), k)
  {
    var held := UploadedMap(form, UniqueKeys(form));
    Draft(DropReserved(ToDict(form)), DraftFiles(p, site, held, files, UniqueKeys(files)))
  }

  /** The upsert into `"<schema>".drafts`: the row of the token is replaced or added. */
  function UpsertDraft(drafts: DraftTables, schema: string, token: string, d: Draft): (r: DraftTables)
    ensures r.Keys == drafts.Keys + {schema}
    ensures forall s :: s in drafts && s != schema ==> r[s] == drafts[s]
    ensures token in r[schema] && r[schema][token] == d
    ensures schema in drafts ==>
      r[schema].Keys == drafts[schema].Keys + {token} && forall t :: t in drafts[schema] && t != token ==> r[schema][t] == drafts[schema][t]
  {
    var table := if schema in drafts then drafts[schema] else map[];
    drafts[schema := table[token := d]]
  }

  /** `save_public_draft`: answers 404 for a form without a registry row;
      otherwise upserts the draft under its token in the site's schema and
      returns the token and the URLs per field. */
  function SaveDraft(forms: map<string, Json>, parse: string -> Option<Json>, drafts: DraftTables, site: string,
                     form: Multi<string>, files: Multi<Upload>, newToken: string)
    : (r: Result<(DraftTables, string, Entries<seq<string>>)>)
    ensures r.Ok? <==> LoadPolicy(forms, site, parse).Ok?
    ensures site !in forms ==> r == Err(NotFound)
    ensures r.Ok? ==> var schema := SafeSchema(site);
      && r.value.1 == DraftToken(form, newToken)
      && r.value.0.Keys == drafts.Keys + {schema}
      && (forall s :: s in drafts && s != schema ==> r.value.0[s] == drafts[s])
      && r.value.1 in r.value.0[schema]
      && r.value.0[schema][r.value.1].files == r.value.2
      && (forall k :: Reserved(k) ==> Get(r.value.0[schema][r.value.1].data, k) == None)
  {
    var p := LoadPolicy(forms, site, parse);
    if p.Err? then Err(p.error)
    else
      var token := DraftToken(form, newToken);
      var d := BuildDraft(p.value, site, form, files);
      Ok((UpsertDraft(drafts, SafeSchema(site), token, d), token, d.files))
  }

  /** Saving a draft never loses a URL the form sent back: for every file
      field, the URLs held before are a prefix of those saved, and no field
      that was under the limit ends above it. */
  lemma DraftKeepsUploads(p: Policy, site: string, form: Multi<string>, files: Multi<Upload>, f: string)
    requires UploadedPrefix + f in Keys(form)
    ensures var held := UploadedMap(form, UniqueKeys(form));
      var payload := DraftFiles(p, site, held, files, UniqueKeys(files));
      var before := GetList(form, UploadedPrefix + f);
      && Get(payload, f).Some?
      && |before| <= |Get(payload, f).value|
      && Get(payload, f).value[..|before|] == before
      && (|before| < p.maxFiles ==> |Get(payload, f).value| <= p.maxFiles)
  {
    var held := UploadedMap(form, UniqueKeys(form));
    assert Get(held, f) == Some(GetList(form, UploadedPrefix + f));
  }
}
