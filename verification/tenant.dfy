/** Tenant provisioning in app.py: the site-name grammar checked by
    `create_form`, the PostgreSQL schema name `_safe_schema` derives from a
    site name, the registry upsert keyed by site name, and the `next`
    target the login handler redirects to. */
module Tenant {
  import opened Results
  import opened Text
  import opened JsonValues

  /** PostgreSQL's limit on identifier length. */
  const PgIdentMax := 63

  /** The fallback schema for an empty site name. */
  const DefaultSchema := "s_default"

  predicate IsIdentChar(c: char) { IsAsciiLower(c) || IsDigit(c) || c == '_' }

  predicate NoDoubleUnderscore(s: string) {
    forall i, j :: 0 <= i < |s| && 0 <= j < |s| && j == i + 1 ==> !(s[i] == '_' && s[j] == '_')
  }

  /** What every derived schema name looks like: a non-empty, at most 63
      character identifier over [a-z0-9_] with no "__", not starting with a digit. */
  predicate IsSchemaName(s: string) {
    && 0 < |s| <= PgIdentMax
    && (forall i :: 0 <= i < |s| ==> IsIdentChar(s[i]))
    && NoDoubleUnderscore(s)
    && !IsDigit(s[0])
  }

  /** `s.replace(a, b)` for single characters. */
  function ReplaceChar(s: string, a: char, b: char): (r: string)
    ensures |r| == |s|
    ensures forall i :: 0 <= i < |s| ==> r[i] == if s[i] == a then b else s[i]
  {
    seq(|s|, i requires 0 <= i < |s| => if s[i] == a then b else s[i])
  }

  /** `re.sub(r"[^a-z0-9_]", "_", s)`. */
  function Sanitize(s: string): (r: string)
    ensures |r| == |s|
    ensures forall i :: 0 <= i < |s| ==> r[i] == if IsIdentChar(s[i]) then s[i] else '_'
  {
    seq(|s|, i requires 0 <= i < |s| => if IsIdentChar(s[i]) then s[i] else '_')
  }

  /** `re.sub(r"_+", "_", s)`: every run of underscores becomes one underscore. */
  function CollapseUnderscores(s: string): (r: string)
    ensures NoDoubleUnderscore(r)
    ensures |r| <= |s|
    ensures r == [] <==> s == []
    ensures s != [] ==> r[0] == s[0]
    ensures forall c :: c in r ==> c in s
    ensures NoDoubleUnderscore(s) ==> r == s
  {
    if |s| <= 1 then s
    else if s[0] == '_' && s[1] == '_' then CollapseUnderscores(s[1..])
    else
      var rest := CollapseUnderscores(s[1..]);
      assert NoDoubleUnderscore(s) ==> NoDoubleUnderscore(s[1..]);
      [s[0]] + rest
  }

  /** `s[:n]`. */
  function Truncate(s: string, n: nat): (r: string)
    ensures |r| == if |s| <= n then |s| else n
    ensures r == s[..|r|]
  {
    if |s| <= n then s else s[..n]
  }

  /** A schema name without the length limit. */
  predicate IsSchemaBody(s: string) {
    && s != []
    && (forall i :: 0 <= i < |s| ==> IsIdentChar(s[i]))
    && NoDoubleUnderscore(s)
    && !IsDigit(s[0])
  }

  lemma TruncateSchemaBody(s: string)
    requires IsSchemaBody(s)
    ensures IsSchemaName(Truncate(s, PgIdentMax))
  {
    var r := Truncate(s, PgIdentMax);
    assert forall i :: 0 <= i < |r| ==> r[i] == s[i];
  }

  /** The cleaned name, before the empty-name and digit-prefix fallbacks. */
  function CleanName(siteName: string): (r: string)
    ensures forall i :: 0 <= i < |r| ==> IsIdentChar(r[i])
    ensures NoDoubleUnderscore(r)
  {
    var s2 := Sanitize(ReplaceChar(Lower(PyStrip(siteName)), '-', '_'));
    var r := CollapseUnderscores(s2);
    assert forall c :: c in s2 ==> IsIdentChar(c);
    r
  }

  /** The fallbacks: "s_default" for an empty result, an "s_" prefix before a digit. */
  function Fallbacks(s3: string): (r: string)
    requires forall i :: 0 <= i < |s3| ==> IsIdentChar(s3[i])
    requires NoDoubleUnderscore(s3)
    ensures IsSchemaBody(r)
  {
    var s4 := if s3 == "" then DefaultSchema else s3;
    assert IsIdentChar(s4[0]);
    if IsDigit(s4[0]) then
      var r := "s_" + s4;
      assert forall i :: 0 <= i < |s4| ==> r[i + 2] == s4[i];
      r
    else s4
  }

  /** `_safe_schema`: the PostgreSQL schema that holds a site's tables. */
  function SafeSchema(siteName: string): (r: string)
    ensures IsSchemaName(r)
  {
    if siteName == "" then DefaultSchema
    else
      var s5 := Fallbacks(CleanName(siteName));
      TruncateSchemaBody(s5);
      Truncate(s5, PgIdentMax)
  }

  /** A schema name is left alone by `_safe_schema`: the derivation is idempotent. */
  lemma SafeSchemaIdempotent(siteName: string)
    ensures SafeSchema(SafeSchema(siteName)) == SafeSchema(siteName)
  {
    SafeSchemaFixesSchemaNames(SafeSchema(siteName));
  }

  lemma SchemaNameHasNoSpace(s: string)
    requires IsSchemaName(s)
    ensures forall i :: 0 <= i < |s| ==> !IsPySpace(s[i])
  {
    forall i | 0 <= i < |s|
      ensures !IsPySpace(s[i])
    {
      assert IsIdentChar(s[i]);
    }
  }

  lemma SchemaNameHasNoUpper(s: string)
    requires IsSchemaName(s)
    ensures NoAsciiUpper(s)
  {
    forall i | 0 <= i < |s|
      ensures !IsAsciiUpper(s[i]) && s[i] != '\U{130}' && s[i] != '\U{212a}'
    {
      assert IsIdentChar(s[i]);
    }
  }

  lemma SchemaNameIsLower(s: string)
    requires IsSchemaName(s)
    ensures Lower(PyStrip(s)) == s
  {
    SchemaNameHasNoSpace(s);
    SchemaNameHasNoUpper(s);
    LowerStripPlain(s);
  }

  lemma ReplaceAbsent(s: string, a: char, b: char)
    requires forall i :: 0 <= i < |s| ==> s[i] != a
    ensures ReplaceChar(s, a, b) == s
  {
  }

  lemma SanitizeIdent(s: string)
    requires forall i :: 0 <= i < |s| ==> IsIdentChar(s[i])
    ensures Sanitize(s) == s
  {
  }

  lemma SchemaNameIsClean(s: string)
    requires IsSchemaName(s)
    ensures CleanName(s) == s
  {
    SchemaNameIsLower(s);
    ReplaceAbsent(s, '-', '_');
    SanitizeIdent(s);
    assert CollapseUnderscores(s) == s;
  }

  /** Every string of the schema-name shape is its own derived schema name. */
  lemma SafeSchemaFixesSchemaNames(s: string)
    requires IsSchemaName(s)
    ensures SafeSchema(s) == s
  {
    SchemaNameIsClean(s);
    assert Fallbacks(s) == s;
  }

  /** `re.fullmatch(r"[A-Za-z_][A-Za-z0-9_]*", name)`, the site-name grammar of `create_form`. */
  predicate IsValidSiteName(name: string) {
    && name != []
    && (IsAsciiLetter(name[0]) || name[0] == '_')
    && forall i :: 0 <= i < |name| ==> IsAsciiLetter(name[i]) || IsDigit(name[i]) || name[i] == '_'
  }

  /** ASCII lower-casing of one character. */
  function AsciiLowerChar(c: char): char {
    if IsAsciiUpper(c) then (c as int + 32) as char else c
  }

  /** The ASCII lower-case form of a string. */
  function AsciiLower(name: string): (r: string)
    ensures |r| == |name|
    ensures forall i :: 0 <= i < |name| ==> r[i] == AsciiLowerChar(name[i])
  {
    seq(|name|, i requires 0 <= i < |name| => AsciiLowerChar(name[i]))
  }

  lemma ValidNameHasNoSpace(name: string)
    requires IsValidSiteName(name)
    ensures forall i :: 0 <= i < |name| ==> !IsPySpace(name[i])
  {
    forall i | 0 <= i < |name|
      ensures !IsPySpace(name[i])
    {
      assert IsAsciiLetter(name[i]) || IsDigit(name[i]) || name[i] == '_';
    }
  }

  lemma ValidNameIsAscii(name: string)
    requires IsValidSiteName(name)
    ensures forall i :: 0 <= i < |name| ==> name[i] as int < 128
  {
    forall i | 0 <= i < |name|
      ensures name[i] as int < 128
    {
      assert IsAsciiLetter(name[i]) || IsDigit(name[i]) || name[i] == '_';
    }
  }

  lemma LowerCharAscii(c: char)
    requires c as int < 128
    ensures LowerChar(c) == [AsciiLowerChar(c)]
  {
  }

  lemma LowerOfAsciiAt(name: string)
    requires forall i :: 0 <= i < |name| ==> name[i] as int < 128
    ensures |Lower(name)| == |name|
    ensures forall i :: 0 <= i < |name| ==> Lower(name)[i] == AsciiLowerChar(name[i])
  {
    LowerAscii(name);
    forall i | 0 <= i < |name|
      ensures Lower(name)[i] == AsciiLowerChar(name[i])
    {
      LowerCharAscii(name[i]);
    }
  }

  lemma LowerOfAscii(name: string)
    requires forall i :: 0 <= i < |name| ==> name[i] as int < 128
    ensures Lower(name) == AsciiLower(name)
  {
    LowerOfAsciiAt(name);
  }

  lemma LowerOfValidName(name: string)
    requires IsValidSiteName(name)
    ensures Lower(PyStrip(name)) == AsciiLower(name)
  {
    ValidNameHasNoSpace(name);
    StripNoSpace(name);
    ValidNameIsAscii(name);
    LowerOfAscii(name);
  }

  lemma CleanValidName(name: string)
    requires IsValidSiteName(name)
    ensures CleanName(name) == CollapseUnderscores(AsciiLower(name))
  {
    var lowered := AsciiLower(name);
    LowerOfValidName(name);
    assert forall i :: 0 <= i < |lowered| ==> IsIdentChar(lowered[i]);
    assert ReplaceChar(lowered, '-', '_') == lowered;
    assert Sanitize(lowered) == lowered;
  }

  /** For an accepted site name the schema is the lower-cased name with
      underscore runs collapsed, cut at 63 characters. */
  lemma SafeSchemaOfValidName(name: string)
    requires IsValidSiteName(name)
    ensures SafeSchema(name) == Truncate(CollapseUnderscores(AsciiLower(name)), PgIdentMax)
  {
    CleanValidName(name);
    var c := CollapseUnderscores(AsciiLower(name));
    assert c[0] == AsciiLower(name)[0] && !IsDigit(c[0]);
    assert Fallbacks(c) == c;
  }

  /** Site names that differ only in letter case share one schema: "Demo" and
      "demo" are two registry rows whose submissions land in the same tables. */
  lemma CaseVariantsShareSchema(a: string, b: string)
    requires IsValidSiteName(a) && IsValidSiteName(b)
    requires |a| == |b| && forall i :: 0 <= i < |a| ==> AsciiLowerChar(a[i]) == AsciiLowerChar(b[i])
    ensures SafeSchema(a) == SafeSchema(b)
  {
    SafeSchemaOfValidName(a);
    SafeSchemaOfValidName(b);
    assert AsciiLower(a) == AsciiLower(b);
  }

  /** One row of `form_defs`. */
  datatype FormDef = FormDef(
    name: string,
    schema: Json,
    createdBy: int,
    schemaName: string,   // the `db_url` column holds the derived schema name
    description: string)

  /** `form_defs`, keyed by its unique `site_name` column. */
  type Registry = map<string, FormDef>

  /** The schema text the form posts when `schema_json` is missing. */
  const DefaultSchemaText := "{\"fields\": []}"

  /** The POST branch of `create_form`: validates the names, derives the
      schema name and upserts the registry row keyed by site name. Form
      values the request lacks arrive as "". `parse` stands for `json.loads`,
      None meaning it raised. */
  function CreateForm(reg: Registry, formName: string, siteName: string, formDesc: string,
                      schemaText: string, parse: string -> Option<Json>, user: int): (r: Result<Registry>)
    ensures r.Ok? <==> PyStrip(formName) != "" && IsValidSiteName(PyStrip(siteName))
    ensures r.Err? ==> r.error == BadRequest
  {
    var name := PyStrip(formName);
    var site := PyStrip(siteName);
    if name == "" || site == "" then Err(BadRequest)
    else if !IsValidSiteName(site) then Err(BadRequest)
    else Ok(reg[site := NewForm(name, site, formDesc, schemaText, parse, user)])
  }

  /** The row `create_form` writes: the posted schema text (or the empty
      field list) parsed, `{}` when it does not parse. */
  function NewForm(name: string, site: string, formDesc: string, schemaText: string,
                   parse: string -> Option<Json>, user: int): (f: FormDef)
    ensures f.name == name && f.schemaName == SafeSchema(site) && f.createdBy == user
    ensures f.description == PyStrip(formDesc)
  {
    var text := if schemaText == "" then DefaultSchemaText else schemaText;
    FormDef(name, parse(text).GetOr(Obj([])), user, SafeSchema(site), PyStrip(formDesc))
  }

  /** An accepted form adds or replaces exactly the row of its stripped site
      name, recording the stripped title, the creator and the derived schema. */
  lemma CreateFormWrites(reg: Registry, formName: string, siteName: string, formDesc: string,
                         schemaText: string, parse: string -> Option<Json>, user: int)
    requires CreateForm(reg, formName, siteName, formDesc, schemaText, parse, user).Ok?
    ensures var r := CreateForm(reg, formName, siteName, formDesc, schemaText, parse, user).value;
      var site := PyStrip(siteName);
      && r.Keys == reg.Keys + {site}
      && r[site].name == PyStrip(formName)
      && r[site].schemaName == SafeSchema(site)
      && r[site].createdBy == user
      && (forall s :: s in reg && s != site ==> r[s] == reg[s])
  {
    CreateFormRow(reg, formName, siteName, formDesc, schemaText, parse, user);
    var f := NewForm(PyStrip(formName), PyStrip(siteName), formDesc, schemaText, parse, user);
    UpsertKeeps(reg, PyStrip(siteName), f);
  }

  lemma UpsertKeeps(reg: Registry, site: string, f: FormDef)
    ensures reg[site := f].Keys == reg.Keys + {site}
    ensures forall s :: s in reg && s != site ==> reg[site := f][s] == reg[s]
  {
  }

  lemma CreateFormRow(reg: Registry, formName: string, siteName: string, formDesc: string,
                      schemaText: string, parse: string -> Option<Json>, user: int)
    requires CreateForm(reg, formName, siteName, formDesc, schemaText, parse, user).Ok?
    ensures CreateForm(reg, formName, siteName, formDesc, schemaText, parse, user).value
         == reg[PyStrip(siteName) := NewForm(PyStrip(formName), PyStrip(siteName), formDesc, schemaText, parse, user)]
  {
  }

  /** Re-posting the same site name replaces its row instead of adding one. */
  lemma CreateFormIsUpsert(reg: Registry, formName: string, siteName: string, formDesc: string,
                           schemaText: string, parse: string -> Option<Json>, user: int)
    requires PyStrip(siteName) in reg
    requires CreateForm(reg, formName, siteName, formDesc, schemaText, parse, user).Ok?
    ensures |CreateForm(reg, formName, siteName, formDesc, schemaText, parse, user).value| == |reg|
  {
    CreateFormWrites(reg, formName, siteName, formDesc, schemaText, parse, user);
    var r := CreateForm(reg, formName, siteName, formDesc, schemaText, parse, user).value;
    assert r.Keys == reg.Keys;
  }

  // ---------------------------------------------------------------------
  // Login redirect target

  /** The redirect the login handler issues after a correct password, as
      written: the first non-empty of the query's and the form's `next`, or
      "/index"; "/" and anything not starting with "/" fall back to "/index";
      then "enter=1" is appended as a further query parameter. */
  function LoginRedirect(queryNext: string, formNext: string): (r: string)
    ensures StartsWith(r, "/")
    ensures var target := if queryNext != "" then queryNext else if formNext != "" then formNext else "/index";
      if target != "/" && StartsWith(target, "/") then
        StartsWith(r, target) && r[|target|..] == (if '?' in target then "&enter=1" else "?enter=1")
      else r == "/index?enter=1"
  {
    var next0 := if queryNext != "" then queryNext else if formNext != "" then formNext else "/index";
    var next := if next0 == "/" || !StartsWith(next0, "/") then "/index" else next0;
    var sep := if '?' in next then "&" else "?";
    var r := next + (sep + "enter=1");
    assert r[..|next|] == next;
    assert r[|next|..] == sep + "enter=1";
    r
  }

  /** A path browsers resolve against another host: "//host/..." (and "/\host",
      which browsers read the same way). */
  predicate IsOffSite(path: string) {
    StartsWith(path, "//") || StartsWith(path, "/\\")
  }

  /** The check as written lets a protocol-relative target through: after
      logging in with next=//evil.example the browser is sent to another site. */
  lemma LoginRedirectLetsOffSiteThrough()
    ensures LoginRedirect("//evil.example", "") == "//evil.example?enter=1"
    ensures IsOffSite(LoginRedirect("//evil.example", ""))
  {
    assert '?' !in "//evil.example";
  }

  /** The redirect as evidently intended: only same-site paths are followed. */
  function LoginRedirectSameSite(queryNext: string, formNext: string): (r: string)
    ensures StartsWith(r, "/") && !IsOffSite(r)
  {
    var next0 := if queryNext != "" then queryNext else if formNext != "" then formNext else "/index";
    var next := if next0 == "/" || !StartsWith(next0, "/") || IsOffSite(next0) then "/index" else next0;
    var sep := if '?' in next then "&" else "?";
    var r := next + sep + "enter=1";
    assert |next| >= 2;
    assert r[..2] == next[..2];
    assert StartsWith(r, "//") == StartsWith(next, "//");
    assert StartsWith(r, "/\\") == StartsWith(next, "/\\");
    r
  }

  /** The corrected redirect agrees with the written one on every same-site target. */
  lemma LoginRedirectSameSiteAgrees(queryNext: string, formNext: string)
    requires var t := if queryNext != "" then queryNext else if formNext != "" then formNext else "/index";
      !IsOffSite(t)
    ensures LoginRedirectSameSite(queryNext, formNext) == LoginRedirect(queryNext, formNext)
  {
  }
}
