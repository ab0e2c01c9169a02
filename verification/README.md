# A Dafny model of the form service's core

The system is a multi-tenant form service. Every organiser registers a *site
name*, each site gets its own PostgreSQL schema, and the public fills in that
site's form. Organisers then review submissions (approve, reject, comment),
pick a theme and edit the form in a browser builder. A one-off script merges
old SQLite submission tables into a new one.

This project models the logic at the centre of that system as pure Dafny
functions over immutable values and proves what it promises:

- `Tenant` covers site names and schema names. It models `_safe_schema`, the
  site-name check of `create_form` and the `next` URL normalisation of the
  login handler.
- `Uploads` models `public_submit` and `save_public_draft`: the upload policy,
  the file filter, the quota, the merge of file URLs into the submitted data,
  and the draft upsert.
- `Review` models `api_review`, the insert of a fresh pending submission and
  `_extract_email`.
- `Columns` models `_extract_columns_from_schema`: tag stripping, label
  choice and the Chinese-label filter.
- `Theme` models `_read_theme` and `api_save_theme_bg`.
- `History` models `pushHistory`, `undo` and `redo` of static/builder.js.
- `Builder` models `getByPath`, `setByPath` and the appearance button of
  static/builder.js.
- `Responses` models `normalizeKey`, `valueByQuestion`, `escapeHTML`,
  `fmtVal`, `getFixedFieldIds` and `rebuildRespHeader` of static/builder.js.
- `Merge` models `fp_of`, `insert_row`, `maybe_update` and the merge loop of
  useless/merge_db.py. It contains both the loop as written and a corrected
  loop.
- `Text`, `JsonValues` and `Results` are shared helpers. They model Python's
  `str.strip`/`str.lower`/`split`/`int`, JavaScript's `trim`, JSON values
  with ordered objects, Python and JavaScript truthiness, and an
  `Option`/`Result` pair.

Everything the original does through the outside world becomes a value:

- **Database tables** become maps.
- **Request forms** become ordered multi-maps.
- **Uploaded files** become `Upload` records holding the file name.
- **Fresh values:** the fresh draft token is a parameter, and so is the
  (opaque) name a saved file receives.
- **Parsing and page services:** JSON-text parsing is a parameter. So are the
  page services that `fmtVal` uses, such as URL resolution and
  `JSON.stringify`.
- **Error statuses:** `404` becomes `Err(NotFound)`, `400` becomes
  `Err(BadRequest)`, and an uncaught exception becomes `Err(Crash)`.

## Model

| member | source | states |
|---|---|---|
| Tenant.SafeSchema | app.py:769-782 | every site name, including empty, symbol-only or digit-led ones, yields a legal schema name: non-empty, lower-case identifier characters, no double underscore, at most 63 characters |
| Tenant.SafeSchemaIdempotent | app.py:769-782 | sanitising an already sanitised schema name changes nothing |
| Tenant.SafeSchemaFixesSchemaNames | app.py:769-782 | a name that is already a legal schema name is its own schema name |
| Tenant.CleanName | app.py:772-775 | after strip, lower-casing, `-`→`_`, replacement of other characters and collapsing, only identifier characters remain and no `__` |
| Tenant.CollapseUnderscores | app.py:775 | runs of underscores become one; the result is empty exactly when the input is, keeps the first character, adds no new characters and leaves run-free text alone |
| Tenant.Fallbacks | app.py:776-779 | an empty cleaned name falls back to `s_default` and a digit-led one gets the `s_` prefix, so the body always starts with a letter or underscore |
| Tenant.Truncate | app.py:780 | the result is the prefix of the input of length min(length, limit) |
| Tenant.TruncateSchemaBody | app.py:780 | cutting a legal body at 63 characters keeps it a legal schema name |
| Tenant.CleanValidName | app.py:772-775 | for a site name the registration regex accepts, the cleaned name is just its ASCII lower-casing with runs of `_` collapsed |
| Tenant.SafeSchemaOfValidName | app.py:769-782 | for a registrable site name the schema name is the collapsed lower-cased name cut at 63 characters, and no fallback applies |
| Tenant.CaseVariantsShareSchema | app.py:769-782 | two registrable site names that differ only in letter case map to the same schema |
| Tenant.CreateForm | app.py:554-564 | registration succeeds exactly when the stripped form name is non-empty and the stripped site name matches the site-name regex; otherwise it is a bad request |
| Tenant.NewForm | app.py:607-618 | the stored form carries the given name, the schema name derived from the site, the creating user and the stripped description |
| Tenant.CreateFormWrites | app.py:607-618 | a registration adds or replaces exactly the row of its stripped site name, with the stripped form name and derived schema, and keeps every other site's row |
| Tenant.CreateFormRow | app.py:607-618 | the registry after a registration is the old one with the site's row set to the new form definition |
| Tenant.CreateFormIsUpsert | app.py:607-618 | registering a site name that already exists replaces its row and adds none |
| Tenant.LoginRedirect | app.py:293-297 | the target is the query `next`, else the form `next`, else `/index`; a target that starts with `/` and is not `/` is kept and gets `&enter=1` when it already holds a `?`, `?enter=1` otherwise; anything else becomes `/index?enter=1` |
| Tenant.LoginRedirectLetsOffSiteThrough | app.py:293-297 | a protocol-relative `next` such as `//evil.example` passes through and sends the user off-site |
| Tenant.LoginRedirectSameSite | app.py:293-297 | the corrected redirect always stays on the site: it starts with a single `/` |
| Tenant.LoginRedirectSameSiteAgrees | app.py:293-297 | wherever the original target is not off-site, the corrected redirect equals the original |
| Review.Insert | app.py:1507-1509 | a submission is stored under a fresh positive id as pending with no comment, and every other row is kept |
| Review.RequestText | app.py:1286-1287 | a text field read from the request comes back with no surrounding whitespace |
| Review.ParseReview | app.py:1284-1290 | an accepted review request has a positive id and one of the three statuses |
| Review.ParseReviewRefuses | app.py:1289-1290 | a non-positive id or an unknown status is a bad request |
| Review.ParseReviewAccepts | app.py:1284-1290 | a positive id with a status that is one of the three once stripped is accepted, with status and comment stripped |
| Review.ApplyReview | app.py:1296-1297 | the review sets status and comment of its row only; the data and every other row are untouched |
| Review.ApiReview | app.py:1283-1299 | the request succeeds exactly when it parses as a valid review, and a review never adds or removes rows |
| Review.ApiReviewSetsStatus | app.py:1283-1299 | a valid review of an existing row writes its stripped status and stripped comment and leaves all other rows as they were |
| Review.ExtractEmail | app.py:1868-1873 | a non-object gives `""`; a true `email` wins; the result is non-empty exactly when one of `email`, `邮箱`, `mail` is true |
| Review.FirstEmail | app.py:1870-1872 | the scan finds text exactly when some listed key holds a true value |
| Review.ExtractEmailPriority | app.py:1870-1872 | with no usable `email`, `邮箱` is used before `mail` |
| Uploads.UploadConfig | app.py:1459 | the top-level `upload` object is used when true; otherwise `settings.upload` is used when it is an object, and is empty when false; with neither `upload` nor `settings` the configuration is empty; a true `upload`, `settings` or `settings.upload` that is not an object crashes |
| Uploads.MaxFiles | app.py:1460 | a missing or false `max_files` means 3; a non-zero number is taken as given |
| Uploads.PolicyOf | app.py:1459-1466 | a policy exists only if the configuration can be read, its allow-list is the stripped lower-cased comma-separated types, and any failure is a crash |
| Uploads.TypesAreNonEmpty | app.py:1462-1466 | the allow-list never contains the empty type |
| Uploads.BaseName | app.py:1482 | the final path component is a slash-free suffix of the path |
| Uploads.LastDot | app.py:1482 | finds the last dot of the name, or reports that there is none |
| Uploads.Suffix | app.py:1482 | the suffix is empty or a dot followed by at least one character, with no other dot and no slash |
| Uploads.ExtensionOfName | app.py:1482 | for `stem.ext` the extension checked against the allow-list is the lower-cased `ext` |
| Uploads.SuffixOfName | app.py:1482 | the suffix of `stem.ext` is `.ext` |
| Uploads.PySliceTo | app.py:1478 | Python's `xs[:n]` gives a prefix of length min(n, len) for n ≥ 0 and drops the last -n items for n < 0 |
| Uploads.Keep | app.py:1479-1486 | the kept files are exactly the named files whose extension the policy allows, in order |
| Uploads.KeepAppend | app.py:1479-1486 | filtering distributes over concatenation, so the order of kept files is the order of arrival |
| Uploads.Accepted | app.py:1478-1486 | never more files than `max_files` are saved, and every saved file passes the filter |
| Uploads.RefusedFilesUseQuota | app.py:1478-1486 | the quota is applied before the filter: with a quota of 2, a refused second file crowds out an allowed third |
| Uploads.Urls | app.py:1490 | one URL per saved file, in order |
| Uploads.AttachFilesGet | app.py:1475-1492 | a file field with at least one saved file gets its URL list; every other key keeps its form value |
| Uploads.ToDict | app.py:1469 | each key maps to its first form value as text, and no other keys are present |
| Uploads.UniqueKeys | app.py:1475 | the file fields are each visited once, and all of them are visited |
| Uploads.GetList | app.py:1476 | all values of a key and nothing else |
| Uploads.GetListAppend | app.py:1476 | the values come in the order they were sent: the list splits over concatenation |
| Uploads.GetListOne | app.py:1476 | one entry gives its value exactly when it carries the key |
| Uploads.LoadPolicy | app.py:1452-1466 | an unknown site is not found; a known site's policy comes from its schema, and a schema stored as text is decoded first and crashes unless it decodes to an object |
| JsonValues.StoredObject | app.py:1457 | a stored object is used as is, an empty value is `{}`, stored text must decode to an object, and any other value crashes |
| Uploads.InsertInto | app.py:1495-1509 | the submission lands in the site's own table as pending, under an id new to that table, and other tables are unchanged |
| Uploads.PublicSubmit | app.py:1447-1513 | a submission succeeds exactly when the site exists and its policy can be read; it then adds one pending row to the site's schema and touches no other schema |
| Uploads.SubmissionData | app.py:1469-1492 | the stored data is the form's first values, except that a file field with saved files holds its URL list, within the quota |
| Uploads.DropReserved | app.py:1811-1820 | the draft token and the `__uploaded__` fields are removed and everything else is kept |
| Uploads.DraftToken | app.py:1808 | a non-empty token from the form is reused, otherwise the fresh one is used |
| Uploads.UploadedMap | app.py:1815-1820 | each `__uploaded__<field>` form key gives all its values under `<field>`, and no other entries exist; over distinct form keys the fields appear in the order the form sent them |
| Uploads.UploadedFields | app.py:1816-1818 | a field is listed exactly when its `__uploaded__` key was sent |
| Uploads.UploadedFieldsAppend | app.py:1816-1818 | the field list splits over concatenation of the keys, so it follows their order |
| Uploads.UploadedMapInFormOrder | app.py:1815-1820 | fields `a` then `b` in the form give entries `a` then `b` |
| Uploads.DraftField | app.py:1827-1844 | a field already at its quota keeps its URLs; otherwise the previously uploaded URLs stay in front, the new total stays within `max_files`, and the added URLs are exactly those of the allowed files among the first `max_files - held` uploads |
| Uploads.KeptUrls | app.py:1832-1843 | the URLs of the kept files are those of the allowed uploads, no more and no fewer |
| Uploads.DraftFiles | app.py:1826-1844 | fields with new files are updated as above, and previously uploaded fields without new files are kept |
| Uploads.BuildDraft | app.py:1811-1820 | the draft data is the form's first values minus the reserved keys |
| Uploads.UpsertDraft | app.py:1857-1863 | the draft is stored under its token, replacing any draft with that token and keeping every other draft and schema |
| Uploads.SaveDraft | app.py:1789-1866 | saving succeeds exactly when the site exists and its policy can be read; it then stores under the returned token a draft with no reserved keys whose files are the returned payload |
| Uploads.DraftKeepsUploads | app.py:1815-1844 | URLs uploaded earlier in the draft are never lost and stay in front of the new ones |
| Columns.StripTags | app.py:1036 | removing tags never lengthens the text, introduces no new characters and keeps a leading non-`<` character |
| Columns.StripTagsLeavesNoTag | app.py:1036 | after stripping, no `<…>` tag remains |
| Columns.StripTagsKeepsPlain | app.py:1036 | text without tags is left as it is |
| Columns.StripTagsIdempotent | app.py:1036 | stripping twice is the same as stripping once |
| Columns.ToText | app.py:1033-1037 | only strings give text, and that text has no surrounding whitespace |
| Columns.LabelCandidates | app.py:1046-1053 | the candidate list can be built exactly when `ui`, `props` and `meta` are absent or dictionaries; it has 15 entries and `label` comes first |
| Columns.FirstText | app.py:1046-1056 | the chosen label is the text of the first candidate that yields text, and it is empty only if every candidate is empty |
| Columns.PickLabel | app.py:1044-1065 | a label is picked exactly when the candidates can be built, and the first non-empty candidate wins over the language fallbacks |
| Columns.LabelFirst | app.py:1046-1056 | a non-empty `label` is always the heading |
| Columns.LabelFromTranslations | app.py:1057-1065 | when no candidate yields text, the `zh-CN` entry of the `i18n` translations is the heading |
| Columns.FieldColumn | app.py:1067-1078 | a column has a true key rendered as text and a heading that is the picked label and contains a Chinese character |
| Columns.ColumnOf | app.py:1067-1078 | only a dictionary field can become a column |
| Columns.GatherFrom | app.py:1067-1078 | every column comes from some field, and the scan fails exactly when some field makes it fail |
| Columns.ColumnsOf | app.py:1067-1078 | there are never more columns than fields |
| Columns.ColumnsAreLabelled | app.py:1067-1078 | every extracted column has a non-empty key and a Chinese heading |
| Columns.ColumnsOfAppend | app.py:1067-1078 | columns come out in field order |
| Columns.FieldList | app.py:1025-1031 | the first of `fields`, `questions` and `items` that holds a list is used, even when empty; with none of them there are no fields |
| Columns.ExtractColumns | app.py:1021-1031 | a non-object schema has no columns, and an object's columns are those of its field list |
| Columns.NonChineseLabelSkipped | app.py:1073-1076 | a field whose label has no Chinese character never becomes a column |
| Columns.ChineseLabelKept | app.py:1070-1078 | a field with a true key and a Chinese label always becomes the column (key, label, type) |
| Columns.TypeReadable | app.py:1077 | reading the type of a field whose label could be picked never fails |
| Theme.NormalMode | app.py:1441-1442 | the mode is always one of light, dark and auto; a valid mode is kept and any other becomes auto |
| Theme.StripOr | app.py:1437 | a false value gives the default, a true string gives its stripped text, and a true non-string crashes |
| Theme.StripOrIsStrip | app.py:1437 | this agrees with `(v or default).strip()` |
| Theme.ModeOf | app.py:1440-1442 | a false mode means auto, a true non-string crashes, a string that lower-cases to a known mode gives that mode, and any other string gives auto |
| Theme.LightOf | app.py:1438 | the light colour is the stripped `brand_light` when that is true, else `brand`, else the light default; a true non-string crashes |
| Theme.DarkOf | app.py:1439 | the dark colour is the stripped `brand_dark` when that is true, else `brand`, else the light colour, else the dark default; a true non-string crashes |
| Theme.ReadTheme | app.py:1435-1443 | a theme read always has a valid mode and stripped colours |
| Theme.ColorsOf | app.py:1435-1443 | the same holds for a theme object |
| Theme.ReadThemeMode | app.py:1440-1442 | the first true one of `mode`, `theme_mode` and `appearance` decides the mode, lower-cased when known and auto otherwise |
| Theme.UnknownModeReadsAuto | app.py:1440-1442 | a stored `Purple` reads as auto and `DARK` as dark |
| Theme.ReadThemeDefaults | app.py:1435-1443 | without a theme object the colours are the light default for both and the mode is auto |
| Theme.DarkDefaultNeedsEmptyLight | app.py:1439 | without `brand_dark`, the dark colour falls back to `brand`, then to the light colour, and to the dark default only when both are empty |
| Theme.ParseThemeEdit | app.py:961-968 | an accepted edit has a valid mode and stripped colours |
| Theme.ParseThemeEditMode | app.py:966-968 | the request's first true one of `mode` and `theme_mode` is lower-cased when known and becomes auto otherwise |
| Theme.DropRetired | app.py:987-989 | the retired keys `bg`, `bg_position` and `notifications` are removed and nothing else changes |
| Theme.DropRetiredAbsent | app.py:987-989 | dropping retired keys from a schema without them changes nothing |
| Theme.SetColor | app.py:982-983 | a non-empty colour is written under its key and an empty one leaves the theme alone |
| Theme.EditedThemeGet | app.py:979-989 | each key of the edited theme is the new colour or mode where one was given, and otherwise the old value |
| Theme.EditSchemaGet | app.py:978-989 | the edited schema loses the retired keys, gets the edited theme and keeps every other key |
| Theme.SaveTheme | app.py:960-993 | saving succeeds exactly when the request parses, the site exists and its schema is an object; it changes that site's schema only |
| Theme.SaveThenRead | app.py:960-993 | after saving both colours and a mode, reading the theme gives back exactly those colours and that mode |
| Theme.SaveKeepsUnnamedColors | app.py:982-983 | a colour left empty in the request keeps its previous value |
| Theme.EditedThemeAgain | app.py:979-989 | applying the same theme edit twice is the same as once |
| Theme.EditSchemaIdempotent | app.py:960-993 | saving the same theme twice leaves the schema as after the first save |
| History.PushHistory | static/builder.js:9 | the current schema goes on top of the history, the redo stack is emptied, and past 100 snapshots the oldest is dropped |
| History.Undo | static/builder.js:12 | with history, the top snapshot becomes current and the current schema moves to the redo stack; without history nothing happens |
| History.Redo | static/builder.js:13 | the mirror image of undo |
| History.RedoUndo | static/builder.js:12-13 | undo followed by redo restores the editor exactly |
| History.UndoRedo | static/builder.js:12-13 | redo followed by undo restores the editor exactly |
| History.EditAsWritten | static/builder.js:464 | with the snapshot taken after the change, the top of the history is the edited schema and undo shows the edited schema again |
| History.UndoAfterEditAsWrittenExample | static/builder.js:464 | concretely: from 0 with history [0], an edit to 1 followed by undo still shows 1 |
| History.Edit | static/builder.js:9 | the corrected edit snapshots the schema before changing it |
| History.UndoAfterEdit | static/builder.js:9-13 | with the snapshot first, undo brings back the schema before the edit, redo reapplies it, and below the limit the history is as before |
| History.RunBounded | static/builder.js:9-13 | whatever the user does, the two stacks together never hold more than 100 snapshots |
| Builder.GetPath | static/builder.js:525-529 | an empty path reads the value itself |
| Builder.SetPath | static/builder.js:520-524 | a write changes only the first key of its path in the top object |
| Builder.GetAfterSet | static/builder.js:520-529 | reading a path just written gives the value written |
| Builder.OffPathUnchanged | static/builder.js:520-529 | a write leaves every path that turns off it unchanged |
| Builder.FreshChain | static/builder.js:522 | writing a path into an empty object creates only the chain of that path |
| Builder.ReplacesNonObject | static/builder.js:522 | a non-object value in the way is replaced by a fresh object holding only the rest of the path |
| Builder.NoArrayNoFail | static/builder.js:520-524 | a write into fresh objects always succeeds |
| Builder.CurrentAppearance | static/builder.js:578 | the appearance the button starts from is always a true value |
| Builder.NextAppearance | static/builder.js:579 | the next mode is light, dark or auto, and anything other than light or dark moves to light |
| Builder.AppearanceCycle | static/builder.js:579 | three steps from any of the three modes come back to it |
| Builder.ThemeButton | static/builder.js:577-581 | a press fails exactly when the theme is missing or null; on an object theme only the appearance changes, and other schema keys are kept |
| Builder.Press | static/builder.js:577-581 | one press on a theme in a known mode writes the next mode |
| Builder.ThreePresses | static/builder.js:577-581 | three presses restore the schema exactly, counting only the button's own writes (the later `sync()` is outside the model) |
| Responses.DropPunct | static/builder.js:864 | removing punctuation never lengthens the key |
| Responses.DropPunctClean | static/builder.js:864 | no listed punctuation or whitespace remains |
| Responses.NormalizeKeyNormal | static/builder.js:863-865 | a normalised key has no upper-case ASCII letter and no punctuation, and normalising twice changes nothing |
| Responses.FirstNormalized | static/builder.js:949-954 | finds the first answer key whose normalised form matches, or reports that none does |
| Responses.ValuePriority | static/builder.js:939-956 | the answer under the question id wins, then the answer under the label, then the first key that normalises like the label, else empty |
| Responses.EscapeHtml | static/builder.js:306 | the escaped text contains no raw `<`, `>`, `"` or `'` |
| Responses.EscapedAmpersands | static/builder.js:306 | every `&` in the escaped text starts one of the five entities |
| Responses.UnescapeEscape | static/builder.js:306 | decoding the entities gives back the original text |
| Responses.ReplaceChar | static/builder.js:907 | replacing a character by text that lacks it removes it |
| Responses.EscapeAngles | static/builder.js:907 | the escaped text contains no `<` or `>` |
| Responses.EscapeAnglesTwoPass | static/builder.js:907 | escaping `<` and then `>` is the same as escaping both in one pass |
| Responses.UnescapeAngles | static/builder.js:907 | for text without `&`, decoding undoes the escaping |
| Responses.Anchor | static/builder.js:902-903 | the link's `href` has no raw quote and its text has no raw angle brackets |
| Responses.FmtVal | static/builder.js:866-867 | null renders as the empty string |
| Responses.FmtItems | static/builder.js:871 | one rendering per array item |
| Responses.NonEmpty | static/builder.js:871 | empty renderings are dropped |
| Responses.PlainTextEscaped | static/builder.js:891-907 | plain text is trimmed and has its angle brackets escaped, and for `&`-free text decoding gives back the trimmed text |
| Responses.WebLinkAnchor | static/builder.js:899-903 | a single web link renders as an anchor named after its last path segment, or `查看` |
| Responses.SingleLink | static/builder.js:899-903 | the same for trimmed text |
| Responses.NullsRenderEmpty | static/builder.js:870-872 | an array of nulls renders as the empty string |
| Responses.FirstMentioning | static/builder.js:915-922 | finds the first field whose label mentions one of the keywords, or reports that none does |
| Responses.Excluded | static/builder.js:962 | every matched fixed field id is excluded, and no empty id is |
| Responses.DynamicIds | static/builder.js:963 | no dynamic column is an excluded id |
| Responses.DynamicIdsExactly | static/builder.js:963 | an id is a dynamic column exactly when some field carries it and it is not excluded |
| Responses.DynamicIdsAppend | static/builder.js:963 | dynamic columns keep field order |
| Responses.Pruned | static/builder.js:965-973 | pruning never adds headings |
| Responses.PrunedExactly | static/builder.js:965-973 | a heading survives exactly when it was listed and its fixed field was found |
| Responses.BeforeHeadings | static/builder.js:965-973 | the leading headings are exactly the kept ones |
| Responses.FindById | static/builder.js:976 | finds a field with the id, or reports that no field has it |
| Responses.Titles | static/builder.js:981 | one header cell per heading |
| Responses.DynamicHeadings | static/builder.js:975-979 | one header cell per dynamic column |
| Responses.HeaderLayout | static/builder.js:959-982 | the header is the kept fixed headings starting with `ID`, then one cell per dynamic column, then the five action headings |
| Responses.FixedNotDynamic | static/builder.js:962-963 | a question recognised as a fixed field never also gets a dynamic column |
| Responses.OthersAreDynamic | static/builder.js:962-963 | every question not recognised as a fixed field gets a dynamic column |
| Merge.Field | useless/merge_db.py:104-107 | a field read for comparison has no surrounding whitespace |
| Merge.FpParts | useless/merge_db.py:77-90 | the fingerprint always has nine parts |
| Merge.FpOfParts | useless/merge_db.py:77-90 | rows that agree on the nine fingerprint parts have the same fingerprint |
| Merge.FpIgnoresPadding | useless/merge_db.py:77-90 | padding a field with whitespace does not change the fingerprint |
| Merge.FpIgnoresCase | useless/merge_db.py:77-90 | changing the letter case of a case-folded field does not change the fingerprint |
| Merge.FpIgnoresReview | useless/merge_db.py:77-90 | status and review comment play no part in the fingerprint |
| Merge.FpDeterminesParts | useless/merge_db.py:77-90 | when no part holds `|`, equal fingerprints mean equal parts |
| Merge.InsertValues | useless/merge_db.py:92-99 | an insert carries every column except `id`, in column order |
| Merge.InsertedCells | useless/merge_db.py:92-99 | the inserted row has the source row's value in every column except `id`, and nothing else |
| Merge.FpKeysCopied | useless/merge_db.py:69 | every fingerprint column is among the copied columns |
| Merge.InsertedFp | useless/merge_db.py:92-99 | an inserted row has the fingerprint of its source row |
| Merge.NullIfEmpty | useless/merge_db.py:115 | an empty value is written as NULL and reads back as the empty string |
| Merge.Decide | useless/merge_db.py:108-115 | an update never writes an empty status or comment |
| Merge.DecideChanges | useless/merge_db.py:108-116 | an update is only issued when it changes the status or the comment |
| Merge.DecideStatus | useless/merge_db.py:109-110 | a settled status is never overwritten; a pending status takes a different non-empty source status, and only then |
| Merge.DecideComment | useless/merge_db.py:111-112 | an existing comment is never overwritten, and an empty one takes a non-empty source comment |
| Merge.DecideKeeps | useless/merge_db.py:108-116 | no update is issued exactly when neither the status rule nor the comment rule applies |
| Merge.SettledTaken | useless/merge_db.py:101-116 | a pending row meeting a settled copy of itself gets that status |
| Merge.CommentTaken | useless/merge_db.py:101-116 | a pending row meeting a commented copy of itself gets the comment, and its status is rewritten as it was |
| Merge.FpMap | useless/merge_db.py:122 | each fingerprint in the index points at a destination row with that fingerprint |
| Merge.FpMapLast | useless/merge_db.py:122 | when several destination rows share a fingerprint, the last one is indexed |
| Merge.Handle | useless/merge_db.py:131-136 | each source row gives at most one statement |
| Merge.MergeRows | useless/merge_db.py:131-136 | a table gives at most one statement per row |
| Merge.Absent | useless/merge_db.py:133-134 | the rows to insert are source rows whose fingerprint is not in the index |
| Merge.HandleInserts | useless/merge_db.py:131-136 | a row is inserted exactly when its fingerprint is not in the index |
| Merge.HandleUpdates | useless/merge_db.py:131-136 | an update always targets the indexed row with the same fingerprint |
| Merge.MergeInsertsAbsent | useless/merge_db.py:126-136 | the inserts are exactly the source rows whose fingerprint was unknown, in order |
| Merge.UpdatesTargetKnownRows | useless/merge_db.py:126-136 | every update targets a row that was in the destination before the merge |
| Merge.MergeAllOfOneSource | useless/merge_db.py:126-128 | a missing source file is skipped |
| Merge.SameNewRowInsertedTwice | useless/merge_db.py:122-136 | a new row present in two source files is inserted twice, because the index never learns inserted rows |
| Merge.FpOfIgnoresReview | useless/merge_db.py:77-90 | the fingerprint does not depend on status or comment |
| Merge.StaleStatusReverts | useless/merge_db.py:122-136 | against the stale index, an approving copy writes the approval and a commenting copy then writes back the old pending status |
| Merge.ApprovalReverted | useless/merge_db.py:122-136 | concretely: a `待审核` row is approved by one source and then set back to `待审核` by a comment from another |
| Merge.Apply | useless/merge_db.py:114-115 | an update changes no column other than status and comment |
| Merge.ApplyKeeps | useless/merge_db.py:101-116 | an update never undoes a settled status or replaces an existing comment |
| Merge.RowKeepsOrder | useless/merge_db.py:101-116 | keeping review decisions is reflexive and transitive |
| Merge.StepFixed | useless/merge_db.py:131-136 | in the corrected loop, the index keeps pointing at rows with matching fingerprints after each row |
| Merge.MergeFixed | useless/merge_db.py:118-136 | the same holds over a whole source table |
| Merge.MergeFixedKeeps | useless/merge_db.py:118-136 | the corrected merge never undoes a settled status or replaces a comment already in the destination, however many sources agree or disagree |
| Merge.NoDuplicateInserts | useless/merge_db.py:122-136 | the corrected merge never inserts two rows with one fingerprint, nor a row whose fingerprint was already known |
| Merge.MergeFixedFp | useless/merge_db.py:118-136 | with the real fingerprint, the corrected merge keeps review decisions and inserts no duplicates |

## Left out

- Database access, file-system writes, e-mail, exports and HTTP rendering are not modelled. The tables and request data they would hold are inputs, and the statements issued are results.
- The time- and uuid-based stored file name is an opaque function of the upload. `secure_filename` is not modelled.
- `CREATE SCHEMA` and table-creation failures and the 500 responses they cause are not modelled; only the data written on success is.
- `api_save_theme_bg`: both its 500 response and a crash are `Err(Crash)`, because the model does not tell them apart.
- JSON numbers are integers; floating point is not modelled.
- `int()` here accepts optional sign and ASCII digits. It does not model underscores or non-ASCII digits.
- `str.lower` maps ASCII letters and a few special cases. Full Unicode case mapping is not modelled.
- `str()` of dictionaries and lists follows Python's repr for the value shapes used here. Escape sequences inside quoted strings are not modelled.
- `json.loads` on a schema stored as JSON text is the parameter `parse` (`None` when it raises). The JSON decoder itself is not modelled.
- Object keys keep insertion order. JavaScript's reordering of integer-like keys is not modelled.
- Builder.SetPath: a path that runs through an array gives no result. JavaScript would set a named property on the array.
- `setByPath` on a top-level value that is not an object is not modelled.
- `sync()`'s copying of computed CSS colours into the schema is not modelled.
- `sync()` also replaces a missing or false `schema.theme` with `{}` before writing colours (static/builder.js:515-516). That repair is not modelled, so a press on a theme that is missing or null fails in the model.
- Builder.Lookup: a path step into a value that is not an object gives no result. JavaScript would read array indexes and properties such as a string's `length`.
- `new URL(...)` throwing is not modelled, because the page's `resolve` service is a total parameter. In the source a failure in the object branch is caught and gives "[object Object]", while one in the string branch propagates (static/builder.js:885-900).
- `__labelText` reads text from the DOM. Each question's label text is an input.
- Non-string question ids are not modelled.
- `new URL(...)` resolution and `JSON.stringify` in `fmtVal` are page services passed as a parameter.
- `Path.suffix` is modelled for names with a final component. Its treatment of names made only of dots and of trailing dots follows Python only for the shapes modelled.
- merge_db.py: the SQLite connection, its commit and the printed counters are not modelled. The loop's result is the list of statements it issues.
- Merge.MergeFixedKeeps: the corrected merge is proved from any state whose index tracks its table. Starting it from the script's initial index is left to that assumption.
- Uploads.Accepted: files refused by the filter still count against `max_files`, because the code slices the list before filtering (app.py:1478). A reader might expect up to `max_files` saved files; the model follows the code.

## Findings

| source | as written | input that shows it | evidently intended | confidence | as-written member | corrected member |
|---|---|---|---|---|---|---|
| app.py:293-297 | any `next` that starts with `/` is used as the redirect target | `next=//evil.example` redirects to `//evil.example?enter=1`, another host | only same-site paths (a single leading `/`) are followed | not executed | Tenant.LoginRedirectLetsOffSiteThrough | Tenant.LoginRedirectSameSiteAgrees |
| static/builder.js:464 | edit handlers change the schema and then call `pushHistory` | schema 0 with history [0], edit to 1, press undo: the schema stays 1 | undo returns to the schema before the edit | not executed | History.UndoAfterEditAsWrittenExample | History.UndoAfterEdit |
| useless/merge_db.py:122-136 | the fingerprint index is built once, before the loop, and never learns inserted rows | the same new row in both source files | the row is inserted once | not executed | Merge.SameNewRowInsertedTwice | Merge.NoDuplicateInserts |
| useless/merge_db.py:122-136 | updates are decided against the destination row as first read, not as updated | a `待审核` row approved in one source and commented `ok` in another: the second update writes `待审核` back | an approval is never reverted | not executed | Merge.ApprovalReverted | Merge.MergeFixedKeeps |
