/** A tenant's `submissions` table and the review workflow of app.py:
    inserting a new submission, the `api_review` status/comment update and
    `_extract_email`, which picks the notification recipient. */
module Review {
  import opened Results
  import opened Text
  import opened JsonValues

  /** The three workflow states; "待审核" (pending) is the column default. */
  const Pending := "待审核"
  const Approved := "已通过"
  const Rejected := "未通过"

  predicate IsStatus(s: string) { s == Pending || s == Approved || s == Rejected }

  /** One row of a tenant's `submissions` table (its timestamp is left out). */
  datatype Submission = Submission(data: Object, status: string, comment: Option<string>)

  /** The table, keyed by its SERIAL id; `nextId` is the sequence's next value. */
  datatype Store = Store(rows: map<int, Submission>, nextId: int)

  /** Every id handed out so far is positive and below the sequence's next value. */
  predicate ValidStore(st: Store) {
    st.nextId >= 1 && forall id :: id in st.rows ==> 0 < id < st.nextId
  }

  /** The INSERT of `public_submit`: a new row holding the data, always pending,
      without comment, under a fresh id. */
  function Insert(st: Store, data: Object): (r: (Store, int))
    requires ValidStore(st)
    ensures ValidStore(r.0)
    ensures r.1 !in st.rows && r.1 > 0
    ensures r.0.rows.Keys == st.rows.Keys + {r.1}
    ensures r.0.rows[r.1] == Submission(data, Pending, None)
    ensures forall id :: id in st.rows ==> r.0.rows[id] == st.rows[id]
  {
    var id := st.nextId;
    (Store(st.rows[id := Submission(data, Pending, None)], id + 1), id)
  }

  /** The `id` of an `api_review` request: `int(payload.get("id") or 0)`. */
  function RequestId(payload: Object): Result<int> {
    var v := GetOrNull(payload, "id");
    if !PyTruthy(v) then Ok(0) else PyInt(v)
  }

  /** A text field of a request: `(payload.get(key) or "").strip()`. */
  function RequestText(payload: Object, key: string): (r: Result<string>)
    ensures r.Ok? ==> r.value == "" || (!IsPySpace(r.value[0]) && !IsPySpace(r.value[|r.value| - 1]))
  {
    var s := StrOr(GetOrNull(payload, key), "");
    if s.Err? then Err(s.error) else Ok(PyStrip(s.value))
  }

  /** A review request that passed validation. */
  datatype Verdict = Verdict(id: int, status: string, comment: string)

  /** The validation half of `api_review`: the id, status and comment are read
      in that order (any of them may raise), then an id below 1 or a status
      outside the three states is refused. */
  function ParseReview(body: Json): (r: Result<Verdict>)
    ensures r.Ok? ==> r.value.id > 0 && IsStatus(r.value.status)
  {
    var p := OrEmptyObject(body);
    if p.Err? then Err(p.error) else
    var i := RequestId(p.value);
    if i.Err? then Err(i.error) else
    var s := RequestText(p.value, "status");
    if s.Err? then Err(s.error) else
    var c := RequestText(p.value, "review_comment");
    if c.Err? then Err(c.error) else
    if i.value <= 0 || !IsStatus(s.value) then Err(BadRequest)
    else Ok(Verdict(i.value, s.value, c.value))
  }

  /** The UPDATE half of `api_review`: the row with the verdict's id takes its
      status and comment; an id that matches no row changes nothing. */
  function ApplyReview(st: Store, v: Verdict): (r: Store)
    ensures r.nextId == st.nextId && r.rows.Keys == st.rows.Keys
    ensures forall id :: id in st.rows && id != v.id ==> r.rows[id] == st.rows[id]
    ensures v.id in st.rows ==>
      r.rows[v.id].data == st.rows[v.id].data && r.rows[v.id].status == v.status && r.rows[v.id].comment == Some(v.comment)
  {
    if v.id !in st.rows then st
    else st.(rows := st.rows[v.id := st.rows[v.id].(status := v.status, comment := Some(v.comment))])
  }

  /** `api_review`: a validated request updates one row; a refused one changes nothing. */
  function ApiReview(st: Store, body: Json): (r: Result<Store>)
    ensures r.Ok? <==> ParseReview(body).Ok?
    ensures r.Ok? ==> r.value.rows.Keys == st.rows.Keys && r.value.nextId == st.nextId
  {
    var p := ParseReview(body);
    if p.Err? then Err(p.error) else Ok(ApplyReview(st, p.value))
  }

  /** A request whose id is zero or negative, or whose stripped status is not
      one of the three states, is refused whatever else it holds. */
  lemma ParseReviewRefuses(payload: Object, id: int, status: string, comment: string)
    requires GetOrNull(payload, "id") == Num(id)
    requires GetOrNull(payload, "status") == Str(status)
    requires GetOrNull(payload, "review_comment") == Str(comment)
    requires id <= 0 || !IsStatus(PyStrip(status))
    ensures ParseReview(Obj(payload)) == Err(BadRequest)
  {
  }

  lemma StringOr(payload: Object, key: string, text: string)
    requires GetOrNull(payload, key) == Str(text)
    ensures StrOr(GetOrNull(payload, key), "") == Ok(text)
  {
  }

  lemma RequestTextOfString(payload: Object, key: string, text: string)
    requires GetOrNull(payload, key) == Str(text)
    ensures RequestText(payload, key) == Ok(PyStrip(text))
  {
    StringOr(payload, key, text);
  }

  lemma StatusHasNoSpace(s: string)
    requires IsStatus(s)
    ensures forall i :: 0 <= i < |s| ==> !IsPySpace(s[i])
  {
    forall i | 0 <= i < |s|
      ensures !IsPySpace(s[i])
    {
      assert s[i] in {'待', '审', '核', '已', '通', '过', '未'};
    }
  }

  lemma StatusIsStripped(s: string)
    requires IsStatus(s)
    ensures PyStrip(s) == s
  {
    StatusHasNoSpace(s);
    StripNoSpace(s);
  }

  /** A request naming a positive id and, once stripped, one of the three
      states is accepted, with status and comment stripped: " 已通过 " is
      as good as "已通过". */
  lemma ParseReviewAccepts(payload: Object, id: int, status: string, comment: string)
    requires GetOrNull(payload, "id") == Num(id)
    requires GetOrNull(payload, "status") == Str(status)
    requires GetOrNull(payload, "review_comment") == Str(comment)
    requires id > 0 && IsStatus(PyStrip(status))
    ensures ParseReview(Obj(payload)) == Ok(Verdict(id, PyStrip(status), PyStrip(comment)))
  {
    RequestTextOfString(payload, "status", status);
    RequestTextOfString(payload, "review_comment", comment);
    assert RequestId(payload) == Ok(id);
    ParseReviewOfParts(payload, id, PyStrip(status), PyStrip(comment));
  }

  lemma ParseReviewOfParts(payload: Object, id: int, status: string, comment: string)
    requires RequestId(payload) == Ok(id)
    requires RequestText(payload, "status") == Ok(status)
    requires RequestText(payload, "review_comment") == Ok(comment)
    requires id > 0 && IsStatus(status)
    ensures ParseReview(Obj(payload)) == Ok(Verdict(id, status, comment))
  {
  }

  /** A well-formed review of an existing row sets exactly that row's status and
      stripped comment; reviewing it again overwrites both, keeping no history. */
  lemma ApiReviewSetsStatus(st: Store, payload: Object, id: int, status: string, comment: string)
    requires GetOrNull(payload, "id") == Num(id)
    requires GetOrNull(payload, "status") == Str(status)
    requires GetOrNull(payload, "review_comment") == Str(comment)
    requires id in st.rows && id > 0 && IsStatus(PyStrip(status))
    ensures var r := ApiReview(st, Obj(payload));
      && r.Ok?
      && r.value.rows[id] == st.rows[id].(status := PyStrip(status), comment := Some(PyStrip(comment)))
      && (forall other :: other in st.rows && other != id ==> r.value.rows[other] == st.rows[other])
  {
    ParseReviewAccepts(payload, id, status, comment);
  }

  /** The keys `_extract_email` tries, in order. */
  const EmailKeys := ["email", "邮箱", "mail"]

  /** `_extract_email`: the first of "email", "邮箱" and "mail" holding a true
      value, as text; "" when there is none or the data is not an object. */
  function ExtractEmail(data: Json): (r: string)
    ensures !data.Obj? ==> r == ""
    ensures data.Obj? && PyTruthy(GetOrNull(data.entries, "email")) ==> r == PyStr(GetOrNull(data.entries, "email"))
    ensures r != "" <==> data.Obj? && exists k :: k in EmailKeys && PyTruthy(GetOrNull(data.entries, k))
  {
    if !data.Obj? then "" else FirstEmail(data.entries, EmailKeys)
  }

  function FirstEmail(o: Object, keys: seq<string>): (r: string)
    ensures r != "" <==> exists k :: k in keys && PyTruthy(GetOrNull(o, k))
  {
    if keys == [] then ""
    else
      var v := GetOrNull(o, keys[0]);
      if PyTruthy(v) then PyStr(v) else FirstEmail(o, keys[1..])
  }

  /** "邮箱" is consulted only when "email" holds nothing, and "mail" only when neither does. */
  lemma ExtractEmailPriority(o: Object)
    requires !PyTruthy(GetOrNull(o, "email"))
    ensures PyTruthy(GetOrNull(o, "邮箱")) ==> ExtractEmail(Obj(o)) == PyStr(GetOrNull(o, "邮箱"))
    ensures !PyTruthy(GetOrNull(o, "邮箱")) && PyTruthy(GetOrNull(o, "mail")) ==> ExtractEmail(Obj(o)) == PyStr(GetOrNull(o, "mail"))
  {
    var ks := EmailKeys;
    assert ks[0] == "email";
    assert ks[1..] == ["邮箱", "mail"];
    assert FirstEmail(o, ks) == FirstEmail(o, ks[1..]);
    assert ks[1..][1..] == ["mail"];
  }
}
