/** The form builder's undo and redo (`pushHistory`, `undo`, `redo` in
    static/builder.js). Snapshots are the serialised schema; the model keeps
    them as values of any type `T`. */
module History {
  /** `historyStack` keeps at most this many snapshots. */
  const Limit := 100

  /** The schema being edited and the two stacks (last element = top). */
  datatype Editor<T> = Editor(schema: T, history: seq<T>, redo: seq<T>)

  /** The two stacks together never hold more than `Limit` snapshots. */
  predicate Bounded<T>(ed: Editor<T>) {
    |ed.history| + |ed.redo| <= Limit
  }

  /** `pushHistory`: the current schema goes on top of the history, the
      oldest snapshot is dropped past the limit, the redo stack is emptied. */
  function PushHistory<T>(ed: Editor<T>): (r: Editor<T>)
    ensures r.schema == ed.schema && r.redo == []
    ensures r.history != [] && r.history[|r.history| - 1] == ed.schema
    ensures |ed.history| <= Limit ==> Bounded(r)
    ensures |ed.history| < Limit ==> r.history == ed.history + [ed.schema]
    ensures |ed.history| >= Limit ==> r.history == ed.history[1..] + [ed.schema]
  {
    var h := ed.history + [ed.schema];
    if |h| > Limit then
      assert h[1..] == ed.history[1..] + [ed.schema];
      Editor(ed.schema, h[1..], [])
    else Editor(ed.schema, h, [])
  }

  /** `undo`: with an empty history nothing happens; otherwise the current
      schema goes on the redo stack and the top of the history becomes current. */
  function Undo<T>(ed: Editor<T>): (r: Editor<T>)
    ensures ed.history == [] ==> r == ed
    ensures ed.history != [] ==>
      r.schema == ed.history[|ed.history| - 1] && r.history + [r.schema] == ed.history && r.redo == ed.redo + [ed.schema]
    ensures Bounded(ed) ==> Bounded(r)
  {
    if ed.history == [] then ed
    else Editor(ed.history[|ed.history| - 1], ed.history[..|ed.history| - 1], ed.redo + [ed.schema])
  }

  /** `redo`: the mirror image of `undo`. */
  function Redo<T>(ed: Editor<T>): (r: Editor<T>)
    ensures ed.redo == [] ==> r == ed
    ensures ed.redo != [] ==>
      r.schema == ed.redo[|ed.redo| - 1] && r.redo + [r.schema] == ed.redo && r.history == ed.history + [ed.schema]
    ensures Bounded(ed) ==> Bounded(r)
  {
    if ed.redo == [] then ed
    else Editor(ed.redo[|ed.redo| - 1], ed.history + [ed.schema], ed.redo[..|ed.redo| - 1])
  }

  /** Undo followed by redo restores the editor exactly. */
  lemma RedoUndo<T>(ed: Editor<T>)
    requires ed.history != []
    ensures Redo(Undo(ed)) == ed
  {
    var u := Undo(ed);
    assert u.redo[..|u.redo| - 1] == ed.redo;
    assert u.history + [u.schema] == ed.history;
  }

  /** Redo followed by undo restores the editor exactly. */
  lemma UndoRedo<T>(ed: Editor<T>)
    requires ed.redo != []
    ensures Undo(Redo(ed)) == ed
  {
    var r := Redo(ed);
    assert r.history[..|r.history| - 1] == ed.history;
    assert r.redo + [r.schema] == ed.redo;
  }

  // ---------------------------------------------------------------------
  // Where the snapshot is taken

  /** How every edit handler in the builder is written: it changes the schema
      first and calls `pushHistory` afterwards, so the snapshot on top of the
      history is the edited schema itself. */
  function EditAsWritten<T>(ed: Editor<T>, change: T -> T): (r: Editor<T>)
    ensures r.schema == change(ed.schema)
    ensures r.history != [] && r.history[|r.history| - 1] == change(ed.schema)
    ensures Undo(r).schema == change(ed.schema)
    ensures Bounded(ed) ==> Bounded(r)
  {
    PushHistory(ed.(schema := change(ed.schema)))
  }

  /** A concrete case: a builder loaded with schema 0 (the initial
      `pushHistory` recorded it) gets an edit to 1, and undo shows 1 still. */
  lemma UndoAfterEditAsWrittenExample()
    ensures var ed := Editor(0, [0], []);
      var edited := EditAsWritten(ed, (x: int) => x + 1);
      edited.schema == 1 && Undo(edited).schema == 1
  {
    var ed := Editor(0, [0], []);
    var edited := EditAsWritten(ed, (x: int) => x + 1);
    assert edited.schema == 1;
  }

  /** The evident intent: snapshot the schema, then change it. */
  function Edit<T>(ed: Editor<T>, change: T -> T): (r: Editor<T>)
    ensures r.schema == change(ed.schema) && r.redo == []
    ensures r.history != [] && r.history[|r.history| - 1] == ed.schema
  {
    var p := PushHistory(ed);
    p.(schema := change(p.schema))
  }

  /** With the snapshot taken first, one undo brings back the schema from
      before the edit (and the history as it was, below the limit), and redo
      reapplies the edit. */
  lemma UndoAfterEdit<T>(ed: Editor<T>, change: T -> T)
    ensures Undo(Edit(ed, change)).schema == ed.schema
    ensures Undo(Edit(ed, change)).redo == [change(ed.schema)]
    ensures |ed.history| < Limit ==> Undo(Edit(ed, change)).history == ed.history
    ensures Redo(Undo(Edit(ed, change))) == Edit(ed, change)
  {
    var e := Edit(ed, change);
    RedoUndo(e);
    if |ed.history| < Limit {
      assert e.history == ed.history + [ed.schema];
      assert e.history[..|e.history| - 1] == ed.history;
    }
  }

  /** What the user does in the builder: an edit, or a click on undo or redo. */
  datatype Action<!T> = Change(change: T -> T) | UndoClick | RedoClick

  /** The builder after a series of actions, edits handled as written. */
  function Run<T>(ed: Editor<T>, actions: seq<Action<T>>): Editor<T>
    decreases |actions|
  {
    if actions == [] then ed
    else
      var next := match actions[0]
        case Change(f) => EditAsWritten(ed, f)
        case UndoClick => Undo(ed)
        case RedoClick => Redo(ed);
      Run(next, actions[1..])
  }

  /** Whatever the user does, the two stacks stay within the limit. */
  lemma {:induction false} RunBounded<T>(ed: Editor<T>, actions: seq<Action<T>>)
    requires Bounded(ed)
    ensures Bounded(Run(ed, actions))
    decreases |actions|
  {
    if actions != [] {
      var next := match actions[0]
        case Change(f) => EditAsWritten(ed, f)
        case UndoClick => Undo(ed)
        case RedoClick => Redo(ed);
      RunBounded(next, actions[1..]);
    }
  }
}
