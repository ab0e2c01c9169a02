/** The one-off merge of useless/merge_db.py: rows of older `submissions`
    tables are copied into the destination table unless a row with the same
    fingerprint is already there, in which case the destination row's review
    status and comment are back-filled conservatively. The SQLite reads and
    writes become values: the rows read are inputs, and the statements the
    script issues are the result. */
module Merge {
  import opened Results
  import opened Text

  /** The columns the script selects, in order. */
  const Cols: seq<string> := ["id", "name", "phone", "email", "group_name", "event_name", "start_date",
    "start_time", "end_date", "end_time", "location", "event_type", "participants", "equipment",
    "special_request", "donation", "donation_method", "remarks", "emergency_name", "emergency_phone",
    "status", "review_comment"]

  /** The text columns of a row by name; a NULL column is None. */
  type Cells = map<string, Option<string>>

  /** A row as selected: its integer id and its text columns. */
  datatype Row = Row(id: int, cells: Cells)

  /** `d.get(k)`. */
  function Cell(c: Cells, k: string): Option<string> {
    if k in c then c[k] else None
  }

  /** `x or ""` for a text column. */
  function TextOr(v: Option<string>): string {
    if v.Some? then v.value else ""
  }

  /** `(d.get(k) or "").strip()`. */
  function Field(c: Cells, k: string): (r: string)
    ensures Stripped(r)
  {
    PyStrip(TextOr(Cell(c, k)))
  }

  lemma StripStripped(s: string)
    requires Stripped(s)
    ensures PyStrip(s) == s
  {
    TrimUnspaced(s, Python);
  }

  /** A stripped cell reads back as itself. */
  lemma FieldIs(c: Cells, k: string, s: string)
    requires Cell(c, k) == Some(s) && Stripped(s)
    ensures Field(c, k) == s
  {
    StripStripped(s);
  }

  /** A NULL cell reads as empty text. */
  lemma FieldNone(c: Cells, k: string)
    requires Cell(c, k) == None
    ensures Field(c, k) == ""
  {
    StripStripped("");
  }

  /** Writing one column leaves the others as they read. */
  lemma FieldOther(c: Cells, k: string, j: string, v: Option<string>)
    requires k != j
    ensures Field(c[j := v], k) == Field(c, k)
  {
    assert Cell(c[j := v], k) == Cell(c, k);
  }

  // ---------------------------------------------------------------------
  // fp_of

  /** The nine columns that identify a booking. */
  const FpKeys: seq<string> := ["name", "phone", "email", "event_name", "start_date", "start_time",
    "end_date", "end_time", "location"]

  /** The fingerprint columns compared without regard to letter case. */
  predicate CaseFolded(k: string) {
    k == "name" || k == "email" || k == "event_name" || k == "location"
  }

  /** One component of the fingerprint: the stripped text, lower-cased for
      the case-folded columns. */
  function FpPart(c: Cells, k: string): string {
    if CaseFolded(k) then Lower(Field(c, k)) else Field(c, k)
  }

  function FpParts(c: Cells): (r: seq<string>)
    ensures |r| == 9
  {
    seq(9, i requires 0 <= i < 9 => FpPart(c, FpKeys[i]))
  }

  /** `fp_of(row)`: the nine components joined with "|". */
  function FpOf(c: Cells): string {
    Join(FpParts(c), "|")
  }

  /** The fingerprint depends on the nine components only. */
  lemma FpOfParts(c1: Cells, c2: Cells)
    requires forall i :: 0 <= i < 9 ==> FpPart(c1, FpKeys[i]) == FpPart(c2, FpKeys[i])
    ensures FpOf(c1) == FpOf(c2)
  {
    assert FpParts(c1) == FpParts(c2);
  }

  /** Two values of one column with the same fingerprint component give the
      same fingerprint. */
  lemma FpUpdate(c: Cells, k: string, x: Option<string>, y: Option<string>)
    requires FpPart(c[k := x], k) == FpPart(c[k := y], k)
    ensures FpOf(c[k := x]) == FpOf(c[k := y])
  {
    var c1 := c[k := x];
    var c2 := c[k := y];
    forall i | 0 <= i < 9
      ensures FpPart(c1, FpKeys[i]) == FpPart(c2, FpKeys[i])
    {
      if FpKeys[i] != k {
        assert Cell(c1, FpKeys[i]) == Cell(c2, FpKeys[i]);
      }
    }
    FpOfParts(c1, c2);
  }

  /** Two values of one column that read the same give the same fingerprint. */
  lemma FpSameField(c: Cells, k: string, x: Option<string>, y: Option<string>)
    requires Field(c[k := x], k) == Field(c[k := y], k)
    ensures FpOf(c[k := x]) == FpOf(c[k := y])
  {
    FpUpdate(c, k, x, y);
  }

  /** A value padded with white space reads as the value itself. */
  lemma FieldPadded(c: Cells, k: string, a: string, s: string, b: string)
    requires AllSpace(a, Python) && AllSpace(b, Python) && Stripped(s)
    ensures Field(c[k := Some(a + s + b)], k) == s
  {
    StripPadded(a, s, b, Python);
  }

  /** White space around a column's value does not change the fingerprint. */
  lemma FpIgnoresPadding(c: Cells, k: string, a: string, s: string, b: string)
    requires AllSpace(a, Python) && AllSpace(b, Python) && Stripped(s)
    ensures FpOf(c[k := Some(a + s + b)]) == FpOf(c[k := Some(s)])
  {
    FieldPadded(c, k, a, s, b);
    FieldIs(c[k := Some(s)], k, s);
    FpSameField(c, k, Some(a + s + b), Some(s));
  }

  /** In the name, email, event name and location columns, values that differ
      only in letter case give the same fingerprint. */
  lemma FpIgnoresCase(c: Cells, k: string, x: string, y: string)
    requires CaseFolded(k) && Lower(x) == Lower(y)
    ensures FpOf(c[k := Some(x)]) == FpOf(c[k := Some(y)])
  {
    TrimLower(x, Python);
    TrimLower(y, Python);
    assert Field(c[k := Some(x)], k) == PyStrip(x);
    assert Field(c[k := Some(y)], k) == PyStrip(y);
    FpUpdate(c, k, Some(x), Some(y));
  }

  /** The status and comment are not among the fingerprint columns. */
  lemma ReviewNotFp(k: string)
    requires k == "status" || k == "review_comment"
    ensures forall i :: 0 <= i < 9 ==> FpKeys[i] != k
  {
  }

  /** The status and comment are not part of the fingerprint. */
  lemma FpIgnoresReview(c: Cells, k: string, v: Option<string>)
    requires k == "status" || k == "review_comment"
    ensures FpOf(c[k := v]) == FpOf(c)
  {
    ReviewNotFp(k);
    forall i | 0 <= i < 9
      ensures FpPart(c[k := v], FpKeys[i]) == FpPart(c, FpKeys[i])
    {
      assert Cell(c[k := v], FpKeys[i]) == Cell(c, FpKeys[i]);
    }
    FpOfParts(c[k := v], c);
  }

  /** When no component contains "|", equal fingerprints mean equal components
      (a "|" inside a column can make two different bookings collide). */
  lemma FpDeterminesParts(c1: Cells, c2: Cells)
    requires FpOf(c1) == FpOf(c2)
    requires forall i :: 0 <= i < 9 ==> Lacks(FpParts(c1)[i], '|') && Lacks(FpParts(c2)[i], '|')
    ensures FpParts(c1) == FpParts(c2)
  {
    SplitJoin(FpParts(c1), '|');
    SplitJoin(FpParts(c2), '|');
  }

  // ---------------------------------------------------------------------
  // insert_row

  /** `cols_wo_id`: every column but the first, the id. */
  const NonIdCols: seq<string> := Cols[1..]

  /** `vals` of `insert_row`: the row's value of every column except the id,
      in column order. */
  function InsertValues(r: Row): (vals: seq<Option<string>>)
    ensures |vals| == |Cols| - 1
    ensures forall i :: 0 <= i < |vals| ==> vals[i] == Cell(r.cells, Cols[i + 1])
  {
    seq(|NonIdCols|, i requires 0 <= i < |NonIdCols| => Cell(r.cells, NonIdCols[i]))
  }

  /** The columns of the row the INSERT creates: NULL stays NULL (the
      column default of the status is not applied to an explicit NULL), and
      a column outside the selected ones is not copied. */
  function InsertedCells(r: Row): (c: Cells)
    ensures forall k :: k in NonIdCols ==> Cell(c, k) == Cell(r.cells, k)
    ensures forall k :: k in c ==> k in NonIdCols
  {
    map k | k in NonIdCols :: Cell(r.cells, k)
  }

  /** Every fingerprint column is among the copied columns. */
  lemma FpKeysCopied()
    ensures forall i :: 0 <= i < 9 ==> FpKeys[i] in NonIdCols
  {
    assert NonIdCols[0] == FpKeys[0] && NonIdCols[1] == FpKeys[1] && NonIdCols[2] == FpKeys[2];
    assert NonIdCols[4] == FpKeys[3] && NonIdCols[5] == FpKeys[4] && NonIdCols[6] == FpKeys[5];
    assert NonIdCols[7] == FpKeys[6] && NonIdCols[8] == FpKeys[7] && NonIdCols[9] == FpKeys[8];
  }

  /** A copied row keeps its fingerprint. */
  lemma InsertedFp(r: Row)
    ensures FpOf(InsertedCells(r)) == FpOf(r.cells)
  {
    var c := InsertedCells(r);
    FpKeysCopied();
    forall i | 0 <= i < 9
      ensures FpPart(c, FpKeys[i]) == FpPart(r.cells, FpKeys[i])
    {
      assert Cell(c, FpKeys[i]) == Cell(r.cells, FpKeys[i]);
    }
    FpOfParts(c, r.cells);
  }

  // ---------------------------------------------------------------------
  // maybe_update

  /** A status still waiting for review: empty, or containing "待" (pending). */
  predicate Pending(status: string) {
    status == "" || '待' in status
  }

  /** What `maybe_update` does: nothing, or an UPDATE of the status and comment. */
  datatype Decision = Keep | Write(status: Option<string>, comment: Option<string>)

  /** `x or None`: the empty text is written as NULL. */
  function NullIfEmpty(s: string): (r: Option<string>)
    ensures r != Some("") && TextOr(r) == s
  {
    if s == "" then None else Some(s)
  }

  /** The decision of `maybe_update` on the stripped status and comment of
      the destination row and of the source row: the status is taken from the
      source when the destination's is pending and the source's is present and
      different; the comment is taken only when the destination has none. */
  function Decide(dstStatus: string, srcStatus: string, dstComment: string, srcComment: string): (d: Decision)
    ensures d.Write? ==> d.status != Some("") && d.comment != Some("")
  {
    var takeStatus := Pending(dstStatus) && srcStatus != "" && srcStatus != dstStatus;
    var takeComment := dstComment == "" && srcComment != "";
    var newStatus := if takeStatus then srcStatus else dstStatus;
    var newComment := if takeComment then srcComment else dstComment;
    if takeStatus || takeComment then Write(NullIfEmpty(newStatus), NullIfEmpty(newComment)) else Keep
  }

  /** `maybe_update(conn, dst_row, src_row)`. */
  function MaybeUpdate(dst: Cells, src: Cells): Decision {
    Decide(Field(dst, "status"), Field(src, "status"), Field(dst, "review_comment"), Field(src, "review_comment"))
  }

  /** An UPDATE is issued only when it changes the status or the comment. */
  lemma DecideChanges(a: string, b: string, c: string, e: string)
    ensures var d := Decide(a, b, c, e);
      d.Write? ==> TextOr(d.status) != a || TextOr(d.comment) != c
  {
  }

  /** A settled status is never replaced; a pending one is replaced by a
      present, different source status, and by nothing else. */
  lemma DecideStatus(a: string, b: string, c: string, e: string)
    ensures var d := Decide(a, b, c, e);
      d.Write? && !Pending(a) ==> TextOr(d.status) == a
    ensures var d := Decide(a, b, c, e);
      d.Write? && TextOr(d.status) != a ==> Pending(a) && TextOr(d.status) == b && b != ""
    ensures var d := Decide(a, b, c, e);
      Pending(a) && b != "" && b != a ==> d.Write? && TextOr(d.status) == b
  {
    var d := Decide(a, b, c, e);
    if !(Pending(a) && b != "" && b != a) && d.Write? {
      assert d.status == NullIfEmpty(a);
    }
  }

  /** A comment is never overwritten, and an empty one is filled from a
      present source comment. */
  lemma DecideComment(a: string, b: string, c: string, e: string)
    ensures var d := Decide(a, b, c, e);
      d.Write? && c != "" ==> TextOr(d.comment) == c
    ensures var d := Decide(a, b, c, e);
      c == "" && e != "" ==> d.Write? && TextOr(d.comment) == e
    ensures var d := Decide(a, b, c, e);
      d.Write? && TextOr(d.comment) != c ==> c == "" && TextOr(d.comment) == e
  {
    var d := Decide(a, b, c, e);
    if !(c == "" && e != "") && d.Write? {
      assert d.comment == NullIfEmpty(c);
    }
  }

  /** Nothing is written when the source row brings nothing new: no status for
      a pending row and no comment for a row without one. */
  lemma DecideKeeps(a: string, b: string, c: string, e: string)
    ensures Decide(a, b, c, e).Keep? <==> !(Pending(a) && b != "" && b != a) && !(c == "" && e != "")
  {
  }

  // ---------------------------------------------------------------------
  // The merge loop as written, for any fingerprint function `key`

  /** A statement the merge issues against the destination. */
  datatype Action = Insert(values: seq<Option<string>>) | Update(id: int, status: Option<string>, comment: Option<string>)

  /** `fp_map`: every destination fingerprint with the last destination row
      that has it. */
  function FpMap(key: Cells -> string, dst: seq<Row>): (m: map<string, Row>)
    ensures forall f :: f in m ==> m[f] in dst && key(m[f].cells) == f
  {
    if dst == [] then map[]
    else
      var init := dst[..|dst| - 1];
      var last := dst[|dst| - 1];
      assert dst == init + [last];
      FpMap(key, init)[key(last.cells) := last]
  }

  /** Each destination row is what `fp_map` records under its fingerprint
      when no later row has the same fingerprint: the last such row wins. */
  lemma {:induction false} FpMapLast(key: Cells -> string, dst: seq<Row>, i: nat)
    requires i < |dst|
    requires forall j :: i < j < |dst| ==> key(dst[j].cells) != key(dst[i].cells)
    ensures key(dst[i].cells) in FpMap(key, dst) && FpMap(key, dst)[key(dst[i].cells)] == dst[i]
  {
    var init := dst[..|dst| - 1];
    if i < |dst| - 1 {
      assert init[i] == dst[i];
      forall j | i < j < |init|
        ensures key(init[j].cells) != key(init[i].cells)
      {
        assert init[j] == dst[j];
      }
      FpMapLast(key, init, i);
    }
  }

  /** One source row: a row with an unknown fingerprint is inserted, one with a
      known fingerprint may update the destination row `fp_map` recorded. */
  function Handle(key: Cells -> string, m: map<string, Row>, r: Row): (acts: seq<Action>)
    ensures |acts| <= 1
  {
    var f := key(r.cells);
    if f !in m then [Insert(InsertValues(r))]
    else
      var d := MaybeUpdate(m[f].cells, r.cells);
      if d.Write? then [Update(m[f].id, d.status, d.comment)] else []
  }

  /** The inner loop over the rows of the sources. */
  function MergeRows(key: Cells -> string, m: map<string, Row>, src: seq<Row>): (acts: seq<Action>)
    ensures |acts| <= |src|
    decreases src
  {
    if src == [] then [] else Handle(key, m, src[0]) + MergeRows(key, m, src[1..])
  }

  /** The source databases in order; a missing one (None) is skipped. */
  function Present(sources: seq<Option<seq<Row>>>): seq<Row> {
    if sources == [] then []
    else (if sources[0].Some? then sources[0].value else []) + Present(sources[1..])
  }

  /** The whole merge: `fp_map` is built once from the destination rows, then
      every source row is handled in turn. */
  function MergeAll(dst: seq<Row>, sources: seq<Option<seq<Row>>>): seq<Action> {
    MergeRows(FpOf, FpMap(FpOf, dst), Present(sources))
  }

  /** The source rows whose fingerprint the map does not know. */
  function Absent(key: Cells -> string, m: map<string, Row>, src: seq<Row>): (r: seq<Row>)
    ensures |r| <= |src|
    ensures forall i :: 0 <= i < |r| ==> key(r[i].cells) !in m && r[i] in src
    decreases src
  {
    if src == [] then []
    else (if key(src[0].cells) in m then [] else [src[0]]) + Absent(key, m, src[1..])
  }

  /** The INSERT statements among the actions, by their values. */
  function Inserts(acts: seq<Action>): seq<seq<Option<string>>> {
    if acts == [] then []
    else (if acts[0].Insert? then [acts[0].values] else []) + Inserts(acts[1..])
  }

  function ValuesOf(rows: seq<Row>): (r: seq<seq<Option<string>>>)
    ensures |r| == |rows|
  {
    if rows == [] then [] else [InsertValues(rows[0])] + ValuesOf(rows[1..])
  }

  lemma {:induction false} InsertsAppend(a: seq<Action>, b: seq<Action>)
    ensures Inserts(a + b) == Inserts(a) + Inserts(b)
  {
    if a == [] {
      assert a + b == b;
    } else {
      assert (a + b)[0] == a[0];
      assert (a + b)[1..] == a[1..] + b;
      InsertsAppend(a[1..], b);
    }
  }

  lemma InsertsOne(a: Action)
    ensures Inserts([a]) == if a.Insert? then [a.values] else []
  {
    assert [a][1..] == [];
  }

  /** One row is inserted exactly when its fingerprint is unknown. */
  lemma HandleInserts(key: Cells -> string, m: map<string, Row>, r: Row)
    ensures Inserts(Handle(key, m, r)) == if key(r.cells) in m then [] else [InsertValues(r)]
  {
    var h := Handle(key, m, r);
    if h != [] {
      InsertsOne(h[0]);
      assert h == [h[0]];
    }
  }

  /** An UPDATE a row causes targets the row recorded under its fingerprint. */
  lemma HandleUpdates(key: Cells -> string, m: map<string, Row>, r: Row)
    ensures forall a :: a in Handle(key, m, r) && a.Update? ==> key(r.cells) in m && a.id == m[key(r.cells)].id
  {
  }

  lemma ValuesOfCons(r: Row, rest: seq<Row>)
    ensures ValuesOf([r] + rest) == [InsertValues(r)] + ValuesOf(rest)
  {
    assert ([r] + rest)[1..] == rest;
  }

  /** The merge inserts exactly the source rows whose fingerprint was not in
      the destination before the merge, in order, so the insert count is the
      number of such rows; a row matching an existing booking is never
      inserted. */
  lemma {:induction false} MergeInsertsAbsent(key: Cells -> string, m: map<string, Row>, src: seq<Row>)
    ensures Inserts(MergeRows(key, m, src)) == ValuesOf(Absent(key, m, src))
    ensures |Inserts(MergeRows(key, m, src))| == |Absent(key, m, src)|
    decreases src
  {
    if src != [] {
      var r := src[0];
      var h := Handle(key, m, r);
      var rest := MergeRows(key, m, src[1..]);
      MergeInsertsAbsent(key, m, src[1..]);
      assert MergeRows(key, m, src) == h + rest;
      InsertsAppend(h, rest);
      HandleInserts(key, m, r);
      var absent := Absent(key, m, src[1..]);
      var mine := if key(r.cells) in m then [] else [r];
      assert Absent(key, m, src) == mine + absent;
      assert Inserts(h) == ValuesOf(mine) by {
        if mine != [] {
          ValuesOfCons(r, []);
        }
      }
      if mine == [] {
        assert mine + absent == absent;
      } else {
        ValuesOfCons(r, absent);
      }
    }
  }

  /** Every UPDATE targets a destination row `fp_map` recorded. */
  lemma {:induction false} UpdatesTargetKnownRows(key: Cells -> string, m: map<string, Row>, src: seq<Row>)
    ensures forall a :: a in MergeRows(key, m, src) && a.Update? ==> exists f :: f in m && m[f].id == a.id
    decreases src
  {
    if src != [] {
      UpdatesTargetKnownRows(key, m, src[1..]);
      HandleUpdates(key, m, src[0]);
      forall a | a in MergeRows(key, m, src) && a.Update?
        ensures exists f :: f in m && m[f].id == a.id
      {
        if a in Handle(key, m, src[0]) {
          var f := key(src[0].cells);
          assert f in m && m[f].id == a.id;
        } else {
          assert a in MergeRows(key, m, src[1..]);
        }
      }
    }
  }

  lemma PresentSecond(rows: seq<Row>)
    ensures Present([None, Some(rows)]) == rows
  {
    assert Present([None, Some(rows)]) == [] + Present([Some(rows)]);
    assert Present([Some(rows)]) == rows + [];
  }

  /** A missing first database is skipped: the merge is that of the second
      database's rows. */
  lemma MergeAllOfOneSource(dst: seq<Row>, rows: seq<Row>)
    ensures MergeAll(dst, [None, Some(rows)]) == MergeRows(FpOf, FpMap(FpOf, dst), rows)
  {
    PresentSecond(rows);
  }

  lemma PresentTwice(r: Row)
    ensures Present([Some([r]), Some([r])]) == [r, r]
  {
    assert Present([Some([r]), Some([r])]) == [r] + Present([Some([r])]);
    assert Present([Some([r])]) == [r] + [];
  }

  lemma MergeRowsTwo(key: Cells -> string, m: map<string, Row>, a: Row, b: Row)
    ensures MergeRows(key, m, [a, b]) == Handle(key, m, a) + Handle(key, m, b)
  {
    assert [a, b][1..] == [b];
    assert MergeRows(key, m, [b]) == Handle(key, m, b) + MergeRows(key, m, []);
  }

  lemma MergeRowsOneEach(key: Cells -> string, m: map<string, Row>, a: Row, b: Row, x: Action, y: Action)
    requires Handle(key, m, a) == [x] && Handle(key, m, b) == [y]
    ensures MergeRows(key, m, [a, b]) == [x, y]
  {
    MergeRowsTwo(key, m, a, b);
  }

  /** As written, a new booking present in both source databases is inserted
      twice: `fp_map` does not learn the fingerprints it inserts. */
  lemma SameNewRowInsertedTwice(dst: seq<Row>, r: Row)
    requires FpOf(r.cells) !in FpMap(FpOf, dst)
    ensures MergeAll(dst, [Some([r]), Some([r])]) == [Insert(InsertValues(r)), Insert(InsertValues(r))]
  {
    PresentTwice(r);
    MergeRowsTwo(FpOf, FpMap(FpOf, dst), r, r);
  }

  /** The row with its status set to `v`. */
  function SetStatus(c: Cells, v: Option<string>): Cells {
    c["status" := v]
  }

  /** The row with its review comment set to `v`. */
  function SetComment(c: Cells, v: Option<string>): Cells {
    c["review_comment" := v]
  }

  /** A fingerprint that changing the review columns does not change, and that
      copying a row by INSERT keeps. */
  ghost predicate KeyIgnoresReview(key: Cells -> string) {
    && (forall c: Cells, v: Option<string> :: key(SetStatus(c, v)) == key(c))
    && (forall c: Cells, v: Option<string> :: key(SetComment(c, v)) == key(c))
    && (forall r: Row :: key(InsertedCells(r)) == key(r.cells))
  }

  /** `fp_of` is such a fingerprint. */
  lemma FpOfIgnoresReview()
    ensures KeyIgnoresReview(FpOf)
  {
    forall c: Cells, v: Option<string>
      ensures FpOf(SetStatus(c, v)) == FpOf(c)
    {
      FpIgnoresReview(c, "status", v);
    }
    forall c: Cells, v: Option<string>
      ensures FpOf(SetComment(c, v)) == FpOf(c)
    {
      FpIgnoresReview(c, "review_comment", v);
    }
    forall r: Row
      ensures FpOf(InsertedCells(r)) == FpOf(r.cells)
    {
      InsertedFp(r);
    }
  }

  /** A settled source status replaces a pending one when neither row has a comment. */
  lemma DecideSettled(pending: string, settled: string)
    requires Pending(pending) && settled != "" && !Pending(settled)
    ensures Decide(pending, settled, "", "") == Write(Some(settled), None)
  {
  }

  /** A source row with the same status and a comment fills in the missing comment. */
  lemma DecideCommented(pending: string, comment: string)
    requires comment != ""
    ensures Decide(pending, pending, "", comment) == Write(NullIfEmpty(pending), Some(comment))
  {
  }

  /** A pending row without a comment takes a settled status from a source row. */
  lemma SettledTaken(c: Cells, pending: string, settled: string)
    requires Cell(c, "status") == Some(pending) && Cell(c, "review_comment") == None
    requires Stripped(pending) && Pending(pending) && Stripped(settled) && settled != "" && !Pending(settled)
    ensures MaybeUpdate(c, c["status" := Some(settled)]) == Write(Some(settled), None)
  {
    var src := c["status" := Some(settled)];
    FieldIs(c, "status", pending);
    FieldIs(src, "status", settled);
    FieldNone(c, "review_comment");
    FieldNone(src, "review_comment");
    DecideSettled(pending, settled);
  }

  /** The same row takes a comment from another source row, together with
      its own status as it was before the merge. */
  lemma CommentTaken(c: Cells, pending: string, comment: string)
    requires Cell(c, "status") == Some(pending) && Cell(c, "review_comment") == None
    requires Stripped(pending) && Stripped(comment) && comment != ""
    ensures MaybeUpdate(c, c["review_comment" := Some(comment)]) == Write(NullIfEmpty(pending), Some(comment))
  {
    var src := c["review_comment" := Some(comment)];
    FieldIs(c, "status", pending);
    FieldOther(c, "status", "review_comment", Some(comment));
    FieldNone(c, "review_comment");
    FieldIs(src, "review_comment", comment);
    DecideCommented(pending, comment);
  }

  lemma FpMapOne(key: Cells -> string, d: Row)
    ensures FpMap(key, [d]) == map[key(d.cells) := d]
  {
    assert [d][..0] == [];
  }

  /** A known row whose comparison calls for an UPDATE issues exactly that. */
  lemma HandleWrite(key: Cells -> string, m: map<string, Row>, r: Row, status: Option<string>, comment: Option<string>)
    requires key(r.cells) in m
    requires MaybeUpdate(m[key(r.cells)].cells, r.cells) == Write(status, comment)
    ensures Handle(key, m, r) == [Update(m[key(r.cells)].id, status, comment)]
  {
  }

  lemma SettledHandled(key: Cells -> string, d: Row, pending: string, settled: string)
    requires KeyIgnoresReview(key)
    requires Cell(d.cells, "status") == Some(pending) && Cell(d.cells, "review_comment") == None
    requires Stripped(pending) && Pending(pending) && Stripped(settled) && settled != "" && !Pending(settled)
    ensures Handle(key, map[key(d.cells) := d], Row(d.id, SetStatus(d.cells, Some(settled)))) ==
      [Update(d.id, Some(settled), None)]
  {
    var first := Row(d.id, SetStatus(d.cells, Some(settled)));
    var m := map[key(d.cells) := d];
    assert m[key(first.cells)] == d;
    assert MaybeUpdate(d.cells, first.cells) == Write(Some(settled), None) by {
      SettledTaken(d.cells, pending, settled);
    }
    HandleWrite(key, m, first, Some(settled), None);
  }

  lemma CommentHandled(key: Cells -> string, d: Row, pending: string, comment: string)
    requires KeyIgnoresReview(key)
    requires Cell(d.cells, "status") == Some(pending) && Cell(d.cells, "review_comment") == None
    requires Stripped(pending) && Stripped(comment) && comment != ""
    ensures Handle(key, map[key(d.cells) := d], Row(d.id, SetComment(d.cells, Some(comment)))) ==
      [Update(d.id, NullIfEmpty(pending), Some(comment))]
  {
    var second := Row(d.id, SetComment(d.cells, Some(comment)));
    var m := map[key(d.cells) := d];
    assert m[key(second.cells)] == d;
    assert MaybeUpdate(d.cells, second.cells) == Write(NullIfEmpty(pending), Some(comment)) by {
      CommentTaken(d.cells, pending, comment);
    }
    HandleWrite(key, m, second, NullIfEmpty(pending), Some(comment));
  }

  /** As written, two source rows matching one pending destination row without
      a comment are both compared with the row as it was before the merge: the
      first sets a settled status, the second fills in the comment and writes
      the stale pending status back over the settled one. */
  lemma StaleStatusReverts(key: Cells -> string, d: Row, pending: string, settled: string, comment: string)
    requires KeyIgnoresReview(key)
    requires Cell(d.cells, "status") == Some(pending) && Cell(d.cells, "review_comment") == None
    requires Stripped(pending) && Pending(pending) && Stripped(settled) && settled != "" && !Pending(settled)
    requires Stripped(comment) && comment != ""
    ensures var m := FpMap(key, [d]);
      && Handle(key, m, Row(d.id, SetStatus(d.cells, Some(settled)))) == [Update(d.id, Some(settled), None)]
      && Handle(key, m, Row(d.id, SetComment(d.cells, Some(comment)))) ==
           [Update(d.id, NullIfEmpty(pending), Some(comment))]
  {
    FpMapOne(key, d);
    SettledHandled(key, d, pending, settled);
    CommentHandled(key, d, pending, comment);
  }

  /** "待审核" (awaiting review) is pending and "已通过" (approved) is settled. */
  lemma ReviewWords()
    ensures Stripped("待审核") && Pending("待审核")
    ensures Stripped("已通过") && !Pending("已通过")
  {
    assert "待审核"[0] == '待';
  }

  /** The instance: a booking awaiting review, approved in one source copy and
      commented "ok" in the other, is approved by the first UPDATE and set back
      to awaiting review by the second. `FpOfIgnoresReview` shows that `fp_of`
      is such a fingerprint. */
  lemma ApprovalReverted(key: Cells -> string, d: Row)
    requires KeyIgnoresReview(key)
    requires Cell(d.cells, "status") == Some("待审核") && Cell(d.cells, "review_comment") == None
    ensures var approved := Row(d.id, SetStatus(d.cells, Some("已通过")));
      var commented := Row(d.id, SetComment(d.cells, Some("ok")));
      MergeRows(key, FpMap(key, [d]), [approved, commented]) ==
        [Update(d.id, Some("已通过"), None), Update(d.id, Some("待审核"), Some("ok"))]
  {
    var approved := Row(d.id, SetStatus(d.cells, Some("已通过")));
    var commented := Row(d.id, SetComment(d.cells, Some("ok")));
    var m := FpMap(key, [d]);
    assert Handle(key, m, approved) == [Update(d.id, Some("已通过"), None)]
        && Handle(key, m, commented) == [Update(d.id, Some("待审核"), Some("ok"))] by {
      ReviewWords();
      StaleStatusReverts(key, d, "待审核", "已通过", "ok");
    }
    MergeRowsOneEach(key, m, approved, commented, Update(d.id, Some("已通过"), None),
      Update(d.id, Some("待审核"), Some("ok")));
  }

  // ---------------------------------------------------------------------
  // The merge with an up-to-date fingerprint index

  /** The destination table by id, and the next id AUTOINCREMENT hands out. */
  datatype Table = Table(rows: map<int, Cells>, nextId: int)

  /** The table and an index from each fingerprint to the row that has it. */
  datatype State = State(table: Table, index: map<string, int>)

  /** The UPDATE of a decision on a row's columns. */
  function Apply(c: Cells, d: Decision): (r: Cells)
    ensures forall k :: k != "status" && k != "review_comment" ==> Cell(r, k) == Cell(c, k)
  {
    if d.Keep? then c else SetComment(SetStatus(c, d.status), d.comment)
  }

  /** The index points at table rows with the fingerprint it records, and
      every id lies below the next one. */
  predicate Tracks(key: Cells -> string, st: State) {
    && (forall f :: f in st.index ==> st.index[f] in st.table.rows && key(st.table.rows[st.index[f]]) == f)
    && (forall id :: id in st.table.rows ==> id < st.table.nextId)
  }

  /** Inserting a row under a fresh id and indexing its new fingerprint keeps
      the index accurate. */
  lemma InsertTracks(key: Cells -> string, st: State, f: string, c: Cells)
    requires Tracks(key, st) && f !in st.index && key(c) == f
    ensures Tracks(key, State(Table(st.table.rows[st.table.nextId := c], st.table.nextId + 1),
                              st.index[f := st.table.nextId]))
  {
  }

  /** Changing a row without changing its fingerprint keeps the index accurate. */
  lemma UpdateTracks(key: Cells -> string, st: State, id: int, c: Cells)
    requires Tracks(key, st) && id in st.table.rows && key(c) == key(st.table.rows[id])
    ensures Tracks(key, State(st.table.(rows := st.table.rows[id := c]), st.index))
  {
  }

  /** One source row: an unknown fingerprint inserts the row and records it in
      the index; a known one is compared with the row as the table holds it
      now. */
  function StepFixed(key: Cells -> string, st: State, r: Row): (n: State)
    requires KeyIgnoresReview(key) && Tracks(key, st)
    ensures Tracks(key, n)
  {
    var f := key(r.cells);
    if f !in st.index then
      var id := st.table.nextId;
      var c := InsertedCells(r);
      InsertTracks(key, st, f, c);
      State(Table(st.table.rows[id := c], id + 1), st.index[f := id])
    else
      var id := st.index[f];
      var cur := st.table.rows[id];
      var d := MaybeUpdate(cur, r.cells);
      var c := Apply(cur, d);
      assert key(c) == key(cur) by {
        if d.Write? {
          assert key(SetStatus(cur, d.status)) == key(cur);
        }
      }
      UpdateTracks(key, st, id, c);
      State(st.table.(rows := st.table.rows[id := c]), st.index)
  }

  /** The merge loop with the index kept up to date. */
  function MergeFixed(key: Cells -> string, st: State, src: seq<Row>): (n: State)
    requires KeyIgnoresReview(key) && Tracks(key, st)
    ensures Tracks(key, n)
    decreases src
  {
    if src == [] then st else MergeFixed(key, StepFixed(key, st, src[0]), src[1..])
  }

  /** No review result of row `c` is lost in `u`: a settled status stays as it
      was, and so does a non-empty comment. */
  predicate RowKeeps(c: Cells, u: Cells) {
    && (!Pending(Field(c, "status")) ==> Field(u, "status") == Field(c, "status"))
    && (Field(c, "review_comment") != "" ==> Field(u, "review_comment") == Field(c, "review_comment"))
  }

  /** Every row of `t` survives in `u`, related to its old self by `ok`. */
  predicate Preserves(ok: (Cells, Cells) -> bool, t: Table, u: Table) {
    forall id :: id in t.rows ==> id in u.rows && ok(t.rows[id], u.rows[id])
  }

  /** Review results kept over two steps are kept over both. */
  lemma RowKeepsTrans(c: Cells, u: Cells, w: Cells)
    requires RowKeeps(c, u) && RowKeeps(u, w)
    ensures RowKeeps(c, w)
  {
  }

  /** `RowKeeps` relates every row to itself and is transitive. */
  lemma RowKeepsOrder()
    ensures forall c :: RowKeeps(c, c)
    ensures forall c, u, w :: RowKeeps(c, u) && RowKeeps(u, w) ==> RowKeeps(c, w)
  {
    forall c, u, w | RowKeeps(c, u) && RowKeeps(u, w)
      ensures RowKeeps(c, w)
    {
      RowKeepsTrans(c, u, w);
    }
  }

  /** Writing a stripped text, or NULL for the empty one, reads back as that text. */
  lemma ReadBack(c: Cells, k: string, s: string)
    requires Stripped(s)
    ensures Field(c[k := NullIfEmpty(s)], k) == s
  {
    StripStripped(s);
  }

  /** Writing back a row's own stripped status and comment loses nothing. */
  lemma RewriteKeeps(c: Cells, status: Option<string>, comment: Option<string>)
    requires !Pending(Field(c, "status")) ==> status == NullIfEmpty(Field(c, "status"))
    requires Field(c, "review_comment") != "" ==> comment == NullIfEmpty(Field(c, "review_comment"))
    ensures RowKeeps(c, SetComment(SetStatus(c, status), comment))
  {
    var u := SetComment(SetStatus(c, status), comment);
    if !Pending(Field(c, "status")) {
      ReadBack(c, "status", Field(c, "status"));
      assert Cell(u, "status") == status;
    }
    if Field(c, "review_comment") != "" {
      ReadBack(SetStatus(c, status), "review_comment", Field(c, "review_comment"));
    }
  }

  /** One update keeps every review result. */
  lemma ApplyKeeps(c: Cells, src: Cells)
    ensures RowKeeps(c, Apply(c, MaybeUpdate(c, src)))
  {
    var a, b := Field(c, "status"), Field(src, "status");
    var e, g := Field(c, "review_comment"), Field(src, "review_comment");
    var d := Decide(a, b, e, g);
    DecideStatus(a, b, e, g);
    DecideComment(a, b, e, g);
    if d.Write? {
      RewriteKeeps(c, d.status, d.comment);
    }
  }

  /** Replacing one row by a related row preserves the table. */
  lemma UpdatePreserves(ok: (Cells, Cells) -> bool, t: Table, id: int, c: Cells)
    requires forall x :: ok(x, x)
    requires id in t.rows && ok(t.rows[id], c)
    ensures Preserves(ok, t, t.(rows := t.rows[id := c]))
  {
  }

  /** Adding a row under a new id preserves the table. */
  lemma InsertPreserves(ok: (Cells, Cells) -> bool, t: Table, id: int, c: Cells)
    requires forall x :: ok(x, x)
    requires id !in t.rows
    ensures Preserves(ok, t, Table(t.rows[id := c], id + 1))
  {
  }

  /** A transitive row relation carries over from step to step. */
  lemma PreservesTrans(ok: (Cells, Cells) -> bool, t: Table, u: Table, w: Table)
    requires forall x, y, z :: ok(x, y) && ok(y, z) ==> ok(x, z)
    requires Preserves(ok, t, u) && Preserves(ok, u, w)
    ensures Preserves(ok, t, w)
  {
  }

  lemma StepKeeps(key: Cells -> string, st: State, r: Row)
    requires KeyIgnoresReview(key) && Tracks(key, st)
    ensures Preserves(RowKeeps, st.table, StepFixed(key, st, r).table)
  {
    RowKeepsOrder();
    var f := key(r.cells);
    if f in st.index {
      var id := st.index[f];
      var cur := st.table.rows[id];
      ApplyKeeps(cur, r.cells);
      UpdatePreserves(RowKeeps, st.table, id, Apply(cur, MaybeUpdate(cur, r.cells)));
    } else {
      InsertPreserves(RowKeeps, st.table, st.table.nextId, InsertedCells(r));
    }
  }

  /** With the index kept up to date, a review result, once in the table, is
      never lost for the rest of the merge: every row survives, a settled
      status stays as it was, and so does a non-empty comment. */
  lemma {:induction false} MergeFixedKeeps(key: Cells -> string, st: State, src: seq<Row>)
    requires KeyIgnoresReview(key) && Tracks(key, st)
    ensures Preserves(RowKeeps, st.table, MergeFixed(key, st, src).table)
    decreases src
  {
    RowKeepsOrder();
    if src != [] {
      var n := StepFixed(key, st, src[0]);
      StepKeeps(key, st, src[0]);
      MergeFixedKeeps(key, n, src[1..]);
      PreservesTrans(RowKeeps, st.table, n.table, MergeFixed(key, n, src[1..]).table);
    } else {
      assert forall id :: id in st.table.rows ==> RowKeeps(st.table.rows[id], st.table.rows[id]);
    }
  }

  /** The rows inserted since `st0` are each indexed under their own fingerprint,
      and the index still holds what it held in `st0`. */
  predicate Fresh(key: Cells -> string, st0: State, st: State) {
    && st0.table.nextId <= st.table.nextId
    && (forall f :: f in st0.index ==> f in st.index && st.index[f] == st0.index[f])
    && (forall id :: id in st.table.rows && id >= st0.table.nextId ==>
          key(st.table.rows[id]) in st.index && st.index[key(st.table.rows[id])] == id)
  }

  lemma InsertFresh(key: Cells -> string, st0: State, st: State, f: string, c: Cells)
    requires Tracks(key, st) && Fresh(key, st0, st) && f !in st.index && key(c) == f
    ensures Fresh(key, st0, State(Table(st.table.rows[st.table.nextId := c], st.table.nextId + 1),
                                  st.index[f := st.table.nextId]))
  {
    var n := State(Table(st.table.rows[st.table.nextId := c], st.table.nextId + 1), st.index[f := st.table.nextId]);
    forall id | id in n.table.rows && id >= st0.table.nextId
      ensures key(n.table.rows[id]) in n.index && n.index[key(n.table.rows[id])] == id
    {
      if id != st.table.nextId {
        assert key(st.table.rows[id]) in st.index;
      }
    }
  }

  lemma UpdateFresh(key: Cells -> string, st0: State, st: State, id: int, c: Cells)
    requires Tracks(key, st) && Fresh(key, st0, st) && id in st.table.rows && key(c) == key(st.table.rows[id])
    ensures Fresh(key, st0, State(st.table.(rows := st.table.rows[id := c]), st.index))
  {
  }

  lemma StepFresh(key: Cells -> string, st0: State, st: State, r: Row)
    requires KeyIgnoresReview(key) && Tracks(key, st) && Fresh(key, st0, st)
    ensures Fresh(key, st0, StepFixed(key, st, r))
  {
    var f := key(r.cells);
    if f !in st.index {
      InsertFresh(key, st0, st, f, InsertedCells(r));
    } else {
      var id := st.index[f];
      var cur := st.table.rows[id];
      var c := Apply(cur, MaybeUpdate(cur, r.cells));
      assert key(c) == key(cur) by {
        var d := MaybeUpdate(cur, r.cells);
        if d.Write? {
          assert key(SetStatus(cur, d.status)) == key(cur);
        }
      }
      UpdateFresh(key, st0, st, id, c);
    }
  }

  lemma {:induction false} MergeFixedFresh(key: Cells -> string, st0: State, st: State, src: seq<Row>)
    requires KeyIgnoresReview(key) && Tracks(key, st) && Fresh(key, st0, st)
    ensures Fresh(key, st0, MergeFixed(key, st, src))
    decreases src
  {
    if src != [] {
      StepFresh(key, st0, st, src[0]);
      MergeFixedFresh(key, st0, StepFixed(key, st, src[0]), src[1..]);
    }
  }

  /** With the index kept up to date, the rows the merge inserts have pairwise
      different fingerprints, none of them already in the table's index. */
  lemma NoDuplicateInserts(key: Cells -> string, st: State, src: seq<Row>)
    requires KeyIgnoresReview(key) && Tracks(key, st)
    ensures var n := MergeFixed(key, st, src).table;
      forall a, b :: a in n.rows && b in n.rows && st.table.nextId <= a < b ==>
        key(n.rows[a]) != key(n.rows[b])
    ensures var n := MergeFixed(key, st, src).table;
      forall a :: a in n.rows && st.table.nextId <= a ==> key(n.rows[a]) !in st.index
  {
    MergeFixedFresh(key, st, st, src);
  }

  /** The corrected merge with `fp_of` as the fingerprint keeps every review
      result and inserts each new booking once. */
  lemma MergeFixedFp(st: State, src: seq<Row>)
    requires Tracks(FpOf, st)
    ensures KeyIgnoresReview(FpOf)
    ensures Preserves(RowKeeps, st.table, MergeFixed(FpOf, st, src).table)
    ensures var n := MergeFixed(FpOf, st, src).table;
      forall a, b :: a in n.rows && b in n.rows && st.table.nextId <= a < b ==>
        FpOf(n.rows[a]) != FpOf(n.rows[b])
  {
    FpOfIgnoresReview();
    MergeFixedKeeps(FpOf, st, src);
    NoDuplicateInserts(FpOf, st, src);
  }
}
