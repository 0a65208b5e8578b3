/** The review commit: direct actions, timeline coupling and IOC cascade, first as
    functions on the working state and then as the in-place loops that compute them. */
module ReviewEngine {
  import opened Options
  import opened ReviewModel

  // ---- Direct actions -------------------------------------------------------

  predicate Conflict(x: Item, ms: seq<FieldMod>) {
    exists i :: 0 <= i < |ms| && Get(x, ms[i].field) != ms[i].original
  }

  function FirstConflict(x: Item, ms: seq<FieldMod>): Key
    requires Conflict(x, ms)
  {
    if Get(x, ms[0].field) != ms[0].original then ms[0].field
    else
      assert exists i :: 0 <= i < |ms[1..]| && Get(x, ms[1..][i].field) != ms[1..][i].original by {
        var i :| 0 <= i < |ms| && Get(x, ms[i].field) != ms[i].original;
        assert ms[1..][i - 1] == ms[i];
      }
      FirstConflict(x, ms[1..])
  }

  function ModsOf(x: Item): map<Key, Modification> {
    match Get(x, ExaminerModifications)
    case Mods(m) => m
    case _ => map[]
  }

  function ApplyMod(st: Stamp, x: Item, m: FieldMod): Item {
    if !Editable(m.field) then x
    else
      x[m.field := m.modified]
       [ExaminerModifications :=
         Mods(ModsOf(x)[m.field := Modification(m.original, m.modified, st.examiner, st.now)])]
  }

  function ApplyMods(st: Stamp, x: Item, ms: seq<FieldMod>): Item {
    if ms == [] then x else ApplyMod(st, ApplyMods(st, x, ms[..|ms|-1]), ms[|ms|-1])
  }

  function NotesOf(x: Item): seq<Note> {
    match Get(x, ExaminerNotes)
    case Notes(n) => n
    case _ => []
  }

  function AddNote(st: Stamp, x: Item, note: string): Item {
    if note == "" then x
    else x[ExaminerNotes := Notes(NotesOf(x) + [Note(note, st.examiner, st.now)])]
  }

  /** The hash is taken after the modifications and before the bookkeeping fields;
      on an IOC the flag that shields it from the cascade is set after the hash. */
  function ApproveItem(env: Env, st: Stamp, e: Entry, x: Item): Item {
    var y := AddNote(st, ApplyMods(st, x, e.mods), e.note);
    var z := y[ContentHash := Text(HashOf(env, y))]
              [Status := State(Approved)]
              [ApprovedAt := Text(st.now)]
              [ApprovedBy := Text(st.examiner)]
              [ModifiedAt := Text(st.now)];
    if IsIocId(e.id) then z[ManuallyReviewed := Flag(true)] else z
  }

  function EditItem(env: Env, st: Stamp, e: Entry, x: Item): Item {
    var y := ApplyMods(st, x, e.mods);
    y[ContentHash := Text(HashOf(env, y))][ModifiedAt := Text(st.now)]
  }

  function RejectItem(st: Stamp, e: Entry, x: Item): Item {
    var y := x[Status := State(Rejected)]
              [RejectedAt := Text(st.now)]
              [RejectedBy := Text(st.examiner)];
    var z := if e.reason == "" then y else y[RejectionReason := Text(e.reason)];
    var u := if IsIocId(e.id) then z[ManuallyReviewed := Flag(true)] else z;
    u[ModifiedAt := Text(st.now)]
  }

  /** Whether the entry takes effect on the item it names. */
  predicate Applies(e: Entry, x: Item) {
    match e.action
    case Approve => !Conflict(x, e.mods)
    case Edit => e.mods != [] && !Conflict(x, e.mods)
    case Reject => true
    case UnknownAction => false
  }

  function DirectItem(env: Env, st: Stamp, e: Entry, x: Item): Item {
    if !Applies(e, x) then x
    else if e.action.Approve? then ApproveItem(env, st, e, x)
    else if e.action.Edit? then EditItem(env, st, e, x)
    else RejectItem(st, e, x)
  }

  /** The text of an item's stored hash, empty when it has none. */
  function StoredHash(x: Item): string {
    match Get(x, ContentHash)
    case Text(s) => s
    case _ => ""
  }

  function DirectRecord(e: Entry, x: Item, y: Item): LogRecord {
    match e.action
    case Approve =>
      LogRecord(e.id, Approved, StoredHash(y),
                e.hashAtReview != "" && e.hashAtReview != StoredHash(x), "", "")
    case Edit => LogRecord(e.id, Edited, StoredHash(y), false, "", "")
    case _ => LogRecord(e.id, Rejected, "", false, "", e.reason)
  }

  function DirectStep(env: Env, st: Stamp, w: Work, e: Entry): Work {
    if e.id !in w.items then w.(skipped := w.skipped + [Skip(e.id, NotFound)])
    else
      var x := w.items[e.id];
      if Applies(e, x) then
        var y := DirectItem(env, st, e, x);
        w.(items := w.items[e.id := y], log := w.log + [DirectRecord(e, x, y)])
      else if Conflict(x, e.mods) then
        w.(skipped := w.skipped + [Skip(e.id, FieldChanged(FirstConflict(x, e.mods)))])
      else w
  }

  function Direct(env: Env, st: Stamp, w: Work, es: seq<Entry>): Work {
    if es == [] then w else DirectStep(env, st, Direct(env, st, w, es[..|es|-1]), es[|es|-1])
  }

  function Select(es: seq<Entry>, a: Action): seq<Entry> {
    if es == [] then []
    else Select(es[..|es|-1], a) + (if es[|es|-1].action == a then [es[|es|-1]] else [])
  }

  /** The order in which a commit works through its delta. */
  function Ordered(es: seq<Entry>): seq<Entry> {
    Select(es, Approve) + Select(es, Edit) + Select(es, Reject)
  }

  // ---- Timeline coupling ----------------------------------------------------

  function SourceOf(x: Item): Option<ItemId> {
    match Get(x, AutoCreatedFrom)
    case Text(s) => if s == "" then None else Some(s)
    case _ => None
  }

  /** The status an item's source holds; null when it has no known source. */
  function SourceStatus(items: map<ItemId, Item>, x: Item): Value {
    match SourceOf(x)
    case Some(s) => if s in items then Get(items[s], Status) else Null
    case None => Null
  }

  /** Whether coupling may act on the item: auto-created and not edited by an examiner. */
  predicate Coupled(x: Item) {
    SourceOf(x).Some? && !Truthy(Get(x, ExaminerModifications))
  }

  predicate CoupleApproves(x: Item, ss: Value) {
    Coupled(x) && ss == State(Approved) && Get(x, Status) != State(Approved)
  }

  predicate CoupleRejects(x: Item, ss: Value) {
    Coupled(x) && ss == State(Rejected) && Get(x, Status) != State(Rejected)
  }

  function CoupleItem(env: Env, st: Stamp, x: Item, ss: Value): Item {
    if CoupleApproves(x, ss) then
      var y := x[Status := State(Approved)]
                [ApprovedAt := Text(st.now)]
                [ApprovedBy := Text(st.examiner)]
                [ModifiedAt := Text(st.now)];
      y[ContentHash := Text(HashOf(env, y))]
    else if CoupleRejects(x, ss) then
      x[Status := State(Rejected)]
       [RejectedAt := Text(st.now)]
       [RejectedBy := Text(st.examiner)]
       [RejectionReason := Text("Source finding rejected")]
       [ModifiedAt := Text(st.now)]
    else x
  }

  function CoupleLog(id: ItemId, x: Item, ss: Value, y: Item): seq<LogRecord> {
    if CoupleApproves(x, ss) then
      [LogRecord(id, Approved, StoredHash(y), false, SourceOf(x).value, "")]
    else if CoupleRejects(x, ss) then
      [LogRecord(id, Rejected, "", false, SourceOf(x).value, "Source finding rejected")]
    else []
  }

  function CoupleStep(env: Env, st: Stamp, w: Work, id: ItemId): Work
    requires id in w.items
  {
    var x := w.items[id];
    var ss := SourceStatus(w.items, x);
    var y := CoupleItem(env, st, x, ss);
    w.(items := w.items[id := y], log := w.log + CoupleLog(id, x, ss, y))
  }

  function Couple(env: Env, st: Stamp, w: Work, ids: seq<ItemId>): (r: Work)
    requires forall id :: id in ids ==> id in w.items
    ensures r.items.Keys == w.items.Keys
  {
    if ids == [] then w else CoupleStep(env, st, Couple(env, st, w, ids[..|ids|-1]), ids[|ids|-1])
  }

  // ---- IOC cascade ----------------------------------------------------------

  function Known(items: map<ItemId, Item>, ids: seq<ItemId>): seq<Item> {
    if ids == [] then []
    else Known(items, ids[..|ids|-1]) +
         (if ids[|ids|-1] in items then [items[ids[|ids|-1]]] else [])
  }

  /** The known items behind an IOC, in the order it lists them. */
  function Sources(items: map<ItemId, Item>, x: Item): seq<Item> {
    match Get(x, SourceFindings)
    case Ids(ids) => Known(items, ids)
    case _ => []
  }

  predicate AllHold(srcs: seq<Item>, s: Word) {
    forall i :: 0 <= i < |srcs| ==> Get(srcs[i], Status) == State(s)
  }

  function Active(srcs: seq<Item>): seq<Item> {
    if srcs == [] then []
    else Active(srcs[..|srcs|-1]) +
         (if Get(srcs[|srcs|-1], Status) != State(Rejected) then [srcs[|srcs|-1]] else [])
  }

  function Rank(env: Env, x: Item): nat {
    match Get(x, Confidence)
    case Text(s) =>
      if s == "" then 99
      else
        var u := env.upper(s);
        if u == "HIGH" then 0 else if u == "MEDIUM" then 1 else if u == "LOW" then 2 else 99
    case _ => 99
  }

  /** The first of the best-ranked items, as `min` picks it. */
  function Best(env: Env, xs: seq<Item>): Item
    requires xs != []
  {
    if |xs| == 1 then xs[0]
    else
      var b := Best(env, xs[..|xs|-1]);
      if Rank(env, xs[|xs|-1]) < Rank(env, b) then xs[|xs|-1] else b
  }

  /** A confidence that is true but no string has no `upper`. */
  predicate Rankable(x: Item) {
    Get(x, Confidence).Text? || !Truthy(Get(x, Confidence))
  }

  predicate CascadeOpen(x: Item, srcs: seq<Item>) {
    !Truthy(Get(x, ManuallyReviewed)) && srcs != []
  }

  predicate CascadeApproves(x: Item, srcs: seq<Item>) {
    CascadeOpen(x, srcs) && AllHold(srcs, Approved) && Get(x, Status) != State(Approved)
  }

  predicate CascadeRejects(x: Item, srcs: seq<Item>) {
    CascadeOpen(x, srcs) && AllHold(srcs, Rejected) && Get(x, Status) != State(Rejected)
  }

  /** Whether the cascade rewrites the IOC's confidence. */
  predicate CascadeRanks(env: Env, x: Item, srcs: seq<Item>) {
    CascadeOpen(x, srcs) && Active(srcs) != [] &&
    Get(Best(env, Active(srcs)), Confidence) != Get(x, Confidence)
  }

  /** The exceptions of the cascade: ranking a value that is no string, or copying
      a confidence that the best source does not have. */
  predicate CascadeRaises(env: Env, x: Item, srcs: seq<Item>) {
    CascadeOpen(x, srcs) &&
    ((exists i :: 0 <= i < |Active(srcs)| && !Rankable(Active(srcs)[i])) ||
     (CascadeRanks(env, x, srcs) && Confidence !in Best(env, Active(srcs))))
  }

  function CascadeItem(env: Env, st: Stamp, x: Item, srcs: seq<Item>): Item {
    var y :=
      if CascadeApproves(x, srcs) then
        x[Status := State(Approved)]
         [ApprovedAt := Text(st.now)]
         [ApprovedBy := Text(st.examiner)]
         [ModifiedAt := Text(st.now)]
      else if CascadeRejects(x, srcs) then
        x[Status := State(Rejected)]
         [RejectedAt := Text(st.now)]
         [RejectedBy := Text(st.examiner)]
         [RejectionReason := Text("All source findings rejected")]
         [ModifiedAt := Text(st.now)]
      else x;
    if CascadeRanks(env, x, srcs) then
      y[Confidence := Get(Best(env, Active(srcs)), Confidence)]
    else y
  }

  function CascadeLog(id: ItemId, x: Item, srcs: seq<Item>): seq<LogRecord> {
    if CascadeApproves(x, srcs) then
      [LogRecord(id, Approved, StoredHash(x), false, "ioc_cascade", "")]
    else if CascadeRejects(x, srcs) then
      [LogRecord(id, Rejected, "", false, "ioc_cascade", "All source findings rejected")]
    else []
  }

  function CascadeStep(env: Env, st: Stamp, w: Work, id: ItemId): Option<Work>
    requires id in w.items
  {
    var x := w.items[id];
    var srcs := Sources(w.items, x);
    if CascadeRaises(env, x, srcs) then None
    else
      Some(w.(items := w.items[id := CascadeItem(env, st, x, srcs)],
              log := w.log + CascadeLog(id, x, srcs),
              iocsModified := w.iocsModified || CascadeApproves(x, srcs) ||
                              CascadeRejects(x, srcs) || CascadeRanks(env, x, srcs)))
  }

  function Cascade(env: Env, st: Stamp, w: Work, ids: seq<ItemId>): (r: Option<Work>)
    requires forall id :: id in ids ==> id in w.items
    ensures r.Some? ==> r.value.items.Keys == w.items.Keys
  {
    if ids == [] then Some(w)
    else
      match Cascade(env, st, w, ids[..|ids|-1])
      case None => None
      case Some(u) => CascadeStep(env, st, u, ids[|ids|-1])
  }

  // ---- The whole commit -----------------------------------------------------

  lemma DirectKeys(env: Env, st: Stamp, w: Work, es: seq<Entry>)
    ensures Direct(env, st, w, es).items.Keys == w.items.Keys
  {
    if es != [] { DirectKeys(env, st, w, es[..|es|-1]); }
  }

  lemma {:induction false} DirectAppend(env: Env, st: Stamp, w: Work, a: seq<Entry>, b: seq<Entry>)
    ensures Direct(env, st, w, a + b) == Direct(env, st, Direct(env, st, w, a), b)
  {
    hide DirectStep;
    if b == [] {
      assert a + b == a;
    } else {
      DirectAppend(env, st, w, a, b[..|b|-1]);
      assert (a + b)[..|a + b|-1] == a + b[..|b|-1];
    }
  }

  function Loaded(items: map<ItemId, Item>): Work {
    Work(items, [], [], false)
  }

  /** The state after the direct actions and the timeline coupling. */
  function Reviewed(env: Env, st: Stamp, lay: Layout, items: map<ItemId, Item>, es: seq<Entry>): (r: Work)
    requires forall id :: id in lay.All() ==> id in items
    ensures r.items.Keys == items.Keys
  {
    DirectKeys(env, st, Loaded(items), Ordered(es));
    Couple(env, st, Direct(env, st, Loaded(items), Ordered(es)), lay.All())
  }

  /** The outcome of a commit; None when it raises. */
  function Commit(env: Env, st: Stamp, lay: Layout, items: map<ItemId, Item>, es: seq<Entry>): (r: Option<Work>)
    requires forall id :: id in lay.All() ==> id in items
    ensures r.Some? ==> r.value.items.Keys == items.Keys
  {
    if es == [] then None
    else Cascade(env, st, Reviewed(env, st, lay, items, es), lay.iocs)
  }

  /** Whether a commit saves the IOC file. */
  predicate SavesIocs(lay: Layout, w: Work) {
    lay.iocs != [] && (w.iocsModified || exists i :: 0 <= i < |w.log| && IsIocId(w.log[i].id))
  }

  // ---- The loops ------------------------------------------------------------

  /** One running commit, its items changed in place under their ids. */
  class Committer {
    var items: map<ItemId, Item>
    var log: seq<LogRecord>
    var skipped: seq<Skip>
    var iocsModified: bool

    ghost function Now(): Work
      reads this
    {
      Work(items, log, skipped, iocsModified)
    }

    constructor (loaded: map<ItemId, Item>)
      ensures Now() == Loaded(loaded)
    {
      items := loaded;
      log := [];
      skipped := [];
      iocsModified := false;
    }

    /** The first modification whose original no longer matches the item. */
    method FindConflict(x: Item, ms: seq<FieldMod>) returns (c: Option<Key>)
      ensures c.Some? <==> Conflict(x, ms)
      ensures c.Some? ==> c.value == FirstConflict(x, ms)
    {
      for i := 0 to |ms|
        invariant forall j :: 0 <= j < i ==> Get(x, ms[j].field) == ms[j].original
      {
        if Get(x, ms[i].field) != ms[i].original {
          FirstConflictAt(x, ms, i);
          return Some(ms[i].field);
        }
      }
      return None;
    }

    method Modify(st: Stamp, x: Item, ms: seq<FieldMod>) returns (y: Item)
      ensures y == ApplyMods(st, x, ms)
    {
      y := x;
      for i := 0 to |ms|
        invariant y == ApplyMods(st, x, ms[..i])
      {
        assert ms[..i + 1][..i] == ms[..i];
        if Editable(ms[i].field) {
          var done := ModsOf(y);
          y := y[ms[i].field := ms[i].modified];
          y := y[ExaminerModifications := Mods(done[ms[i].field :=
            Modification(ms[i].original, ms[i].modified, st.examiner, st.now)])];
        }
      }
      assert ms[..|ms|] == ms;
    }

    method Act(env: Env, st: Stamp, e: Entry)
      requires !e.action.UnknownAction?
      modifies this
      ensures Now() == DirectStep(env, st, old(Now()), e)
    {
      if e.id !in items {
        skipped := skipped + [Skip(e.id, NotFound)];
        return;
      }
      var x := items[e.id];
      var y := x;
      if e.action.Reject? {
        y := y[Status := State(Rejected)];
        y := y[RejectedAt := Text(st.now)];
        y := y[RejectedBy := Text(st.examiner)];
        if e.reason != "" { y := y[RejectionReason := Text(e.reason)]; }
        if IsIocId(e.id) { y := y[ManuallyReviewed := Flag(true)]; }
        y := y[ModifiedAt := Text(st.now)];
      } else {
        if e.action.Edit? && e.mods == [] { return; }
        var conflict := FindConflict(x, e.mods);
        if conflict.Some? {
          skipped := skipped + [Skip(e.id, FieldChanged(conflict.value))];
          return;
        }
        y := Modify(st, x, e.mods);
        if e.action.Approve? {
          if e.note != "" {
            y := y[ExaminerNotes := Notes(NotesOf(y) + [Note(e.note, st.examiner, st.now)])];
          }
          y := y[ContentHash := Text(HashOf(env, y))];
          y := y[Status := State(Approved)];
          y := y[ApprovedAt := Text(st.now)];
          y := y[ApprovedBy := Text(st.examiner)];
          y := y[ModifiedAt := Text(st.now)];
          if IsIocId(e.id) { y := y[ManuallyReviewed := Flag(true)]; }
        } else {
          y := y[ContentHash := Text(HashOf(env, y))];
          y := y[ModifiedAt := Text(st.now)];
        }
      }
      items := items[e.id := y];
      log := log + [DirectRecord(e, x, y)];
    }

    /** One of the three passes over the delta: the entries of one action, in order. */
    method Pass(env: Env, st: Stamp, es: seq<Entry>, a: Action)
      requires !a.UnknownAction?
      modifies this
      ensures Now() == Direct(env, st, old(Now()), Select(es, a))
    {
      ghost var start := Now();
      for i := 0 to |es|
        invariant Now() == Direct(env, st, start, Select(es[..i], a))
      {
        assert es[..i + 1][..i] == es[..i];
        if es[i].action == a {
          ghost var done := Select(es[..i], a);
          assert (done + [es[i]])[..|done|] == done;
          Act(env, st, es[i]);
        } else {
          assert Select(es[..i + 1], a) == Select(es[..i], a);
        }
      }
      assert es[..|es|] == es;
    }

    /** One item of the coupling pass. */
    method Follow(env: Env, st: Stamp, id: ItemId)
      requires id in items
      modifies this
      ensures Now() == CoupleStep(env, st, old(Now()), id)
    {
      hide HashOf;
      var x := items[id];
      assert items[id := x] == items && log + [] == log;
      var from := SourceOf(x);
      if from.None? { return; }
      if Truthy(Get(x, ExaminerModifications)) { return; }
      if from.value !in items { return; }
      var source := items[from.value];
      var y := x;
      if Get(source, Status) == State(Approved) && Get(x, Status) != State(Approved) {
        y := y[Status := State(Approved)];
        y := y[ApprovedAt := Text(st.now)];
        y := y[ApprovedBy := Text(st.examiner)];
        y := y[ModifiedAt := Text(st.now)];
        var hash := HashOf(env, y);
        y := y[ContentHash := Text(hash)];
        items := items[id := y];
        log := log + [LogRecord(id, Approved, hash, false, from.value, "")];
      } else if Get(source, Status) == State(Rejected) && Get(x, Status) != State(Rejected) {
        y := y[Status := State(Rejected)];
        y := y[RejectedAt := Text(st.now)];
        y := y[RejectedBy := Text(st.examiner)];
        y := y[RejectionReason := Text("Source finding rejected")];
        y := y[ModifiedAt := Text(st.now)];
        items := items[id := y];
        log := log + [LogRecord(id, Rejected, "", false, from.value, "Source finding rejected")];
      }
    }

    method CoupleTimeline(env: Env, st: Stamp, ids: seq<ItemId>)
      requires forall id :: id in ids ==> id in items
      modifies this
      ensures Now() == Couple(env, st, old(Now()), ids)
    {
      hide CoupleStep;
      ghost var start := Now();
      for i := 0 to |ids|
        invariant Now() == Couple(env, st, start, ids[..i])
      {
        assert ids[..i + 1][..i] == ids[..i];
        assert ids[i] in ids && items.Keys == start.items.Keys;
        Follow(env, st, ids[i]);
      }
      assert ids[..|ids|] == ids;
    }

    /** The first of the best-ranked sources; ranking raises on a confidence that is no string. */
    method PickBest(env: Env, active: seq<Item>) returns (best: Option<Item>)
      requires active != []
      ensures best.None? <==> exists i :: 0 <= i < |active| && !Rankable(active[i])
      ensures best.Some? ==> best.value == Best(env, active)
    {
      hide Rankable, Rank;
      if !Rankable(active[0]) { return None; }
      var b := active[0];
      assert Best(env, active[..1]) == active[0];
      for i := 1 to |active|
        invariant forall j :: 0 <= j < i ==> Rankable(active[j])
        invariant b == Best(env, active[..i])
      {
        assert active[..i + 1][..i] == active[..i];
        if !Rankable(active[i]) { return None; }
        if Rank(env, active[i]) < Rank(env, b) { b := active[i]; }
      }
      assert active[..|active|] == active;
      return Some(b);
    }

    /** One IOC of the cascade. */
    method Settle(env: Env, st: Stamp, id: ItemId) returns (raised: bool)
      requires id in items
      modifies this
      ensures raised <==> CascadeStep(env, st, old(Now()), id).None?
      ensures !raised ==> CascadeStep(env, st, old(Now()), id) == Some(Now())
    {
      hide Active, Best, Known, Rankable, AllHold;
      var x := items[id];
      assert items[id := x] == items && log + [] == log;
      if Truthy(Get(x, ManuallyReviewed)) { return false; }
      var srcs := Sources(items, x);
      if srcs == [] { return false; }
      var y := x;
      if AllHold(srcs, Approved) && Get(x, Status) != State(Approved) {
        y := y[Status := State(Approved)];
        y := y[ApprovedAt := Text(st.now)];
        y := y[ApprovedBy := Text(st.examiner)];
        y := y[ModifiedAt := Text(st.now)];
        iocsModified := true;
        log := log + [LogRecord(id, Approved, StoredHash(x), false, "ioc_cascade", "")];
      } else if AllHold(srcs, Rejected) && Get(x, Status) != State(Rejected) {
        y := y[Status := State(Rejected)];
        y := y[RejectedAt := Text(st.now)];
        y := y[RejectedBy := Text(st.examiner)];
        y := y[RejectionReason := Text("All source findings rejected")];
        y := y[ModifiedAt := Text(st.now)];
        iocsModified := true;
        log := log + [LogRecord(id, Rejected, "", false, "ioc_cascade", "All source findings rejected")];
      }
      var active := Active(srcs);
      if active != [] {
        var best := PickBest(env, active);
        if best.None? { return true; }
        if Get(best.value, Confidence) != Get(x, Confidence) {
          if Confidence !in best.value { return true; }
          y := y[Confidence := best.value[Confidence]];
          iocsModified := true;
        }
      }
      items := items[id := y];
      return false;
    }

    method CascadeIocs(env: Env, st: Stamp, ids: seq<ItemId>) returns (raised: bool)
      requires forall id :: id in ids ==> id in items
      modifies this
      ensures raised <==> Cascade(env, st, old(Now()), ids).None?
      ensures !raised ==> Cascade(env, st, old(Now()), ids) == Some(Now())
    {
      hide CascadeStep;
      ghost var start := Now();
      for i := 0 to |ids|
        invariant Cascade(env, st, start, ids[..i]) == Some(Now())
      {
        assert ids[..i + 1][..i] == ids[..i];
        assert ids[i] in ids && items.Keys == start.items.Keys;
        var stuck := Settle(env, st, ids[i]);
        if stuck {
          CascadeStuck(env, st, start, ids, i + 1);
          return true;
        }
      }
      assert ids[..|ids|] == ids;
      return false;
    }

    method Apply(env: Env, st: Stamp, lay: Layout, es: seq<Entry>) returns (raised: bool)
      requires Now() == Loaded(items)
      requires forall id :: id in lay.All() ==> id in items
      modifies this
      ensures raised <==> Commit(env, st, lay, old(items), es).None?
      ensures !raised ==> Commit(env, st, lay, old(items), es) == Some(Now())
    {
      if es == [] { return true; }
      ghost var start := Now();
      Pass(env, st, es, Approve);
      Pass(env, st, es, Edit);
      Pass(env, st, es, Reject);
      DirectAppend(env, st, start, Select(es, Approve), Select(es, Edit));
      DirectAppend(env, st, start, Select(es, Approve) + Select(es, Edit), Select(es, Reject));
      DirectKeys(env, st, start, Ordered(es));
      CoupleTimeline(env, st, lay.All());
      raised := CascadeIocs(env, st, lay.iocs);
    }
  }

  lemma Unmoved(env: Env, st: Stamp, x: Item, ss: Value)
    requires !CoupleApproves(x, ss) && !CoupleRejects(x, ss)
    ensures CoupleItem(env, st, x, ss) == x
  {
  }

  lemma FirstConflictAt(x: Item, ms: seq<FieldMod>, i: nat)
    requires i < |ms| && Get(x, ms[i].field) != ms[i].original
    requires forall j :: 0 <= j < i ==> Get(x, ms[j].field) == ms[j].original
    ensures FirstConflict(x, ms) == ms[i].field
  {
    if i > 0 {
      assert ms[1..][i - 1] == ms[i];
      assert Conflict(x, ms[1..]);
      FirstConflictAt(x, ms[1..], i - 1);
    }
  }

  lemma CascadeStuck(env: Env, st: Stamp, w: Work, ids: seq<ItemId>, n: nat)
    requires n <= |ids|
    requires forall id :: id in ids ==> id in w.items
    requires Cascade(env, st, w, ids[..n]).None?
    ensures Cascade(env, st, w, ids).None?
    decreases |ids| - n
  {
    if n == |ids| {
      assert ids[..n] == ids;
    } else {
      assert ids[..n + 1][..n] == ids[..n];
      CascadeStuck(env, st, w, ids, n + 1);
    }
  }
}
