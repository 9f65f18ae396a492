/**
  The planner's subject list and the handlers that change it. Each handler first
  awaits the backend (when connected) and only then updates the list, so a call
  that throws leaves the list as it was. The backend's answer is a parameter:
  `ok` for a single call, `accepts(s)` for the create call of each batch member.
*/
module SubjectList {
  import opened Wrappers
  import opened Schedule

  // ---------------------------------------------------------------------------
  // The list operations
  // ---------------------------------------------------------------------------

  /** `prev.map(s => s.id === u.id ? u : s)`. */
  function Replaced(xs: seq<Subject>, u: Subject): (r: seq<Subject>)
    ensures |r| == |xs|
    ensures forall i :: 0 <= i < |xs| && xs[i].id != u.id ==> r[i] == xs[i]
    ensures forall i :: 0 <= i < |xs| ==> r[i].id == xs[i].id
  {
    if |xs| == 0 then []
    else [if xs[0].id == u.id then u else xs[0]] + Replaced(xs[1..], u)
  }

  /** `prev.filter(s => s.id !== id)`. */
  function Removed(xs: seq<Subject>, id: string): (r: seq<Subject>)
    ensures |r| <= |xs|
    ensures forall s :: s in r ==> s.id != id
  {
    if |xs| == 0 then []
    else (if xs[0].id != id then [xs[0]] else []) + Removed(xs[1..], id)
  }

  /** An update puts `u` at exactly the positions holding its id. */
  lemma {:induction false} ReplacedAt(xs: seq<Subject>, u: Subject, i: nat)
    requires i < |xs| && xs[i].id == u.id
    ensures Replaced(xs, u)[i] == u
  {
    if i > 0 {
      ReplacedAt(xs[1..], u, i - 1);
    }
  }

  /** Updating twice with the same record is updating once, and an id nobody has
      leaves the list alone. */
  lemma {:induction false} ReplacedIdempotent(xs: seq<Subject>, u: Subject)
    ensures Replaced(Replaced(xs, u), u) == Replaced(xs, u)
    ensures (forall s :: s in xs ==> s.id != u.id) ==> Replaced(xs, u) == xs
  {
    if |xs| > 0 {
      ReplacedIdempotent(xs[1..], u);
      assert Replaced(xs, u)[1..] == Replaced(xs[1..], u);
      if forall s :: s in xs ==> s.id != u.id {
        assert forall s :: s in xs[1..] ==> s in xs;
      }
    }
  }

  /** The filter keeps exactly the other ids. */
  lemma {:induction false} RemovedExactly(xs: seq<Subject>, id: string, s: Subject)
    ensures s in Removed(xs, id) <==> s in xs && s.id != id
  {
    if |xs| > 0 {
      RemovedExactly(xs[1..], id, s);
      assert xs == [xs[0]] + xs[1..];
    }
  }

  lemma RemovedCons(y: Subject, t: seq<Subject>, id: string)
    ensures Removed([y] + t, id) == (if y.id != id then [y] else []) + Removed(t, id)
  {
    assert ([y] + t)[0] == y;
    assert ([y] + t)[1..] == t;
  }

  lemma HeadOfAppend<T>(a: seq<T>, b: seq<T>)
    requires |a| > 0
    ensures a + b == [a[0]] + (a[1..] + b)
  {
  }

  /** Deleting keeps the order of what remains: it distributes over concatenation. */
  lemma {:induction false} RemovedAppend(a: seq<Subject>, b: seq<Subject>, id: string)
    ensures Removed(a + b, id) == Removed(a, id) + Removed(b, id)
  {
    if |a| == 0 {
      assert a + b == b;
    } else {
      var p := if a[0].id != id then [a[0]] else [];
      var a' := a[1..];
      RemovedAppend(a', b, id);
      HeadOfAppend(a, b);
      RemovedCons(a[0], a' + b, id);
      assert a == [a[0]] + a';
      RemovedCons(a[0], a', id);
      var x, y := Removed(a', id), Removed(b, id);
      assert p + (x + y) == (p + x) + y;
    }
  }

  /** Deleting twice is deleting once. */
  lemma {:induction false} RemovedIdempotent(xs: seq<Subject>, id: string)
    ensures Removed(Removed(xs, id), id) == Removed(xs, id)
  {
    if |xs| > 0 {
      RemovedIdempotent(xs[1..], id);
      var rest := Removed(xs[1..], id);
      if xs[0].id != id {
        assert Removed(xs, id) == [xs[0]] + rest;
        RemovedCons(xs[0], rest, id);
      } else {
        assert Removed(xs, id) == [] + rest == rest;
      }
    }
  }

  /** Deleting an id nobody has changes nothing. */
  lemma {:induction false} RemovedAbsent(xs: seq<Subject>, id: string)
    requires forall s :: s in xs ==> s.id != id
    ensures Removed(xs, id) == xs
  {
    if |xs| > 0 {
      assert xs[0] in xs;
      assert forall s :: s in xs[1..] ==> s in xs;
      RemovedAbsent(xs[1..], id);
      assert xs == [xs[0]] + xs[1..];
    }
  }

  /** Deleting a just-added subject's id is deleting it from the list before. */
  lemma AddThenRemove(xs: seq<Subject>, s: Subject)
    ensures Removed(xs + [s], s.id) == Removed(xs, s.id)
  {
    RemovedAppend(xs, [s], s.id);
    assert Removed([s], s.id) == [];
  }

  // ---------------------------------------------------------------------------
  // The handlers
  // ---------------------------------------------------------------------------

  datatype AppState = AppState(
    subjects: seq<Subject>,
    editing: Option<Subject>,
    showForm: bool,
    showBulkImport: bool,
    showQuickAdd: bool)

  /** The backend call went through: nothing to await when disconnected. */
  predicate Persisted(connected: bool, ok: bool) {
    !connected || ok
  }

  /** `handleAddSubject`: on success the subject is appended and the form closes. */
  function AddSubject(st: AppState, s: Subject, connected: bool, ok: bool): (r: AppState)
    ensures Persisted(connected, ok) ==>
      |r.subjects| == |st.subjects| + 1 && r.subjects[..|st.subjects|] == st.subjects
      && r.subjects[|st.subjects|] == s && !r.showForm && r.editing == st.editing
    ensures !Persisted(connected, ok) ==> r == st
  {
    if Persisted(connected, ok) then st.(subjects := st.subjects + [s], showForm := false) else st
  }

  /** `handleUpdateSubject`: on success every entry with the id is replaced, the
      list keeps its length and order, and the edit ends. */
  function UpdateSubject(st: AppState, u: Subject, connected: bool, ok: bool): (r: AppState)
    ensures Persisted(connected, ok) ==>
      r.subjects == Replaced(st.subjects, u) && r.editing.None? && !r.showForm
    ensures !Persisted(connected, ok) ==> r == st
  {
    if Persisted(connected, ok)
    then st.(subjects := Replaced(st.subjects, u), editing := None, showForm := false)
    else st
  }

  /** `handleDeleteSubject`: nothing happens unless confirmed and persisted. */
  function DeleteSubject(st: AppState, id: string, confirmed: bool, connected: bool, ok: bool): (r: AppState)
    ensures confirmed && Persisted(connected, ok) ==> r == st.(subjects := Removed(st.subjects, id))
    ensures !confirmed || !Persisted(connected, ok) ==> r == st
  {
    if confirmed && Persisted(connected, ok) then st.(subjects := Removed(st.subjects, id)) else st
  }

  /** `handleEditSubject`: open the form on a subject. */
  function EditSubject(st: AppState, s: Subject): (r: AppState)
    ensures r.editing == Some(s) && r.showForm && r.subjects == st.subjects
  {
    st.(editing := Some(s), showForm := true)
  }

  /** `handleCancelForm`: close every panel and forget the edit. */
  function CancelForm(st: AppState): (r: AppState)
    ensures r.subjects == st.subjects && r.editing.None?
    ensures !r.showForm && !r.showBulkImport && !r.showQuickAdd
  {
    st.(showForm := false, showBulkImport := false, showQuickAdd := false, editing := None)
  }

  /** `handleSaveForm`: an update while editing, an add otherwise. */
  function SaveForm(st: AppState, s: Subject, connected: bool, ok: bool): (r: AppState)
    ensures st.editing.Some? ==> r == UpdateSubject(st, s, connected, ok)
    ensures st.editing.None? ==> r == AddSubject(st, s, connected, ok)
  {
    if st.editing.Some? then UpdateSubject(st, s, connected, ok) else AddSubject(st, s, connected, ok)
  }

  /** Every create call of a batch went through: the loop stops at the first
      throw, and the list is only touched after the loop. */
  predicate BatchPersisted(batch: seq<Subject>, connected: bool, accepts: Subject -> bool) {
    !connected || forall i :: 0 <= i < |batch| ==> accepts(batch[i])
  }

  /** `handleBulkImport`: the batch, in order, after the existing list. */
  function BulkImport(st: AppState, batch: seq<Subject>, connected: bool, accepts: Subject -> bool): (r: AppState)
    ensures BatchPersisted(batch, connected, accepts) ==>
      && |r.subjects| == |st.subjects| + |batch|
      && r.subjects[..|st.subjects|] == st.subjects
      && r.subjects[|st.subjects|..] == batch
      && !r.showBulkImport
    ensures !BatchPersisted(batch, connected, accepts) ==> r == st
  {
    if BatchPersisted(batch, connected, accepts)
    then st.(subjects := st.subjects + batch, showBulkImport := false)
    else st
  }

  /** `handleQuickAdd`: the same as a bulk import, closing the quick-add panel. */
  function QuickAdd(st: AppState, batch: seq<Subject>, connected: bool, accepts: Subject -> bool): (r: AppState)
    ensures BatchPersisted(batch, connected, accepts) ==>
      && |r.subjects| == |st.subjects| + |batch|
      && r.subjects[..|st.subjects|] == st.subjects
      && r.subjects[|st.subjects|..] == batch
      && !r.showQuickAdd
    ensures !BatchPersisted(batch, connected, accepts) ==> r == st
  {
    if BatchPersisted(batch, connected, accepts)
    then st.(subjects := st.subjects + batch, showQuickAdd := false)
    else st
  }

  /** Adding one subject is a one-element batch, as far as the list goes. */
  lemma AddIsSingletonBatch(st: AppState, s: Subject, connected: bool, accepts: Subject -> bool)
    ensures AddSubject(st, s, connected, accepts(s)).subjects
         == BulkImport(st, [s], connected, accepts).subjects
  {
    assert BatchPersisted([s], connected, accepts) <==> Persisted(connected, accepts(s)) by {
      assert [s][0] == s;
    }
  }
}
