/** What a single decision of the delta does to the item it names, how the decisions of a
    delta are accounted for, and a chain of followers that one coupling pass does not close. */
module ReviewDecisions {
  import opened Options
  import opened ReviewModel
  import opened ReviewEngine
  import opened ReviewBooks
  import opened ReviewCoupling

  // ---- One decision ---------------------------------------------------------

  /** The value a decision's modifications give a field, if they name it. */
  ghost predicate Sets(ms: seq<FieldMod>, k: Key, v: Value) {
    exists i :: 0 <= i < |ms| && ms[i].field == k && ms[i].modified == v
  }

  /** Exactly the named editable fields take their new values; every other field but the
      record of modifications stays, fields that are not editable among them. */
  lemma {:induction false} ModificationsLand(st: Stamp, x: Item, ms: seq<FieldMod>, k: Key)
    requires k != ExaminerModifications
    ensures var y := ApplyMods(st, x, ms);
            if Editable(k) && Names(ms, k) then k in y && Sets(ms, k, y[k])
            else (k in y <==> k in x) && Get(y, k) == Get(x, k)
  {
    hide Names, Sets, ApplyMod;
    NamesNothing(k);
    if ms != [] {
      var n := |ms| - 1;
      ModificationsLand(st, x, ms[..n], k);
      NamesLast(ms, k);
      SetsMore(ms, k);
      OneLands(st, ApplyMods(st, x, ms[..n]), ms[n], k);
    }
  }

  lemma OneLands(st: Stamp, x: Item, m: FieldMod, k: Key)
    requires k != ExaminerModifications
    ensures var y := ApplyMod(st, x, m);
            if Editable(k) && m.field == k then k in y && y[k] == m.modified
            else (k in y <==> k in x) && Get(y, k) == Get(x, k)
  {
    hide ModsOf;
  }

  lemma SetsMore(ms: seq<FieldMod>, k: Key)
    requires ms != []
    ensures forall v :: Sets(ms[..|ms|-1], k, v) ==> Sets(ms, k, v)
    ensures ms[|ms|-1].field == k ==> Sets(ms, k, ms[|ms|-1].modified)
  {
    var n := |ms| - 1;
    forall v | Sets(ms[..n], k, v) ensures Sets(ms, k, v) {
      var i :| 0 <= i < n && ms[..n][i].field == k && ms[..n][i].modified == v;
      assert ms[i].field == k && ms[i].modified == v;
    }
  }

  /** The modification of a field as the item records it. */
  ghost predicate Recorded(st: Stamp, ms: seq<FieldMod>, k: Key, m: Modification) {
    exists i :: 0 <= i < |ms| && ms[i].field == k &&
                m == Modification(ms[i].original, ms[i].modified, st.examiner, st.now)
  }

  /** Each modification that lands is recorded with the value it replaced, its author and its
      time; every other field's record stays. */
  lemma {:induction false} ModificationsRecorded(st: Stamp, x: Item, ms: seq<FieldMod>, k: Key)
    ensures var m, o := ModsOf(ApplyMods(st, x, ms)), ModsOf(x);
            if Editable(k) && Names(ms, k) then k in m && Recorded(st, ms, k, m[k])
            else (k in m <==> k in o) && (k in m ==> m[k] == o[k])
  {
    hide Names, Recorded, ApplyMod, ModsOf;
    NamesNothing(k);
    if ms != [] {
      var n := |ms| - 1;
      ModificationsRecorded(st, x, ms[..n], k);
      NamesLast(ms, k);
      RecordedMore(st, ms, k);
      OneRecorded(st, ApplyMods(st, x, ms[..n]), ms[n]);
      if Editable(ms[n].field) && ms[n].field == k {
        assert Names(ms, k);
      } else {
        var m, before := ModsOf(ApplyMods(st, x, ms)), ModsOf(ApplyMods(st, x, ms[..n]));
        assert (k in m <==> k in before) && (k in m ==> m[k] == before[k]);
      }
    }
  }

  lemma OneRecorded(st: Stamp, x: Item, m: FieldMod)
    ensures ModsOf(ApplyMod(st, x, m)) ==
            if Editable(m.field) then ModsOf(x)[m.field := Modification(m.original, m.modified, st.examiner, st.now)]
            else ModsOf(x)
  {
  }

  lemma RecordedMore(st: Stamp, ms: seq<FieldMod>, k: Key)
    requires ms != []
    ensures forall m :: Recorded(st, ms[..|ms|-1], k, m) ==> Recorded(st, ms, k, m)
    ensures var l := ms[|ms|-1];
            l.field == k ==> Recorded(st, ms, k, Modification(l.original, l.modified, st.examiner, st.now))
  {
    var n := |ms| - 1;
    forall m | Recorded(st, ms[..n], k, m) ensures Recorded(st, ms, k, m) {
      var i :| 0 <= i < n && ms[..n][i].field == k &&
               m == Modification(ms[..n][i].original, ms[..n][i].modified, st.examiner, st.now);
      assert ms[i].field == k;
    }
  }

  /** The decision's own marks: what became of the item, who decided and when. */
  ghost predicate Marked(st: Stamp, e: Entry, x: Item, y: Item) {
    && Get(y, ModifiedAt) == Text(st.now)
    && (match e.action
        case Approve =>
          && Get(y, Status) == State(Approved) && Get(y, ApprovedBy) == Text(st.examiner)
          && Get(y, ApprovedAt) == Text(st.now) && Get(y, RejectedBy) == Get(x, RejectedBy)
          && NotesOf(y) == NotesOf(x) + (if e.note == "" then [] else [Note(e.note, st.examiner, st.now)])
        case Edit =>
          && Get(y, Status) == Get(x, Status) && Get(y, ApprovedBy) == Get(x, ApprovedBy)
          && Get(y, RejectedBy) == Get(x, RejectedBy) && NotesOf(y) == NotesOf(x)
        case _ =>
          && Get(y, Status) == State(Rejected) && Get(y, RejectedBy) == Text(st.examiner)
          && Get(y, RejectedAt) == Text(st.now) && Get(y, ApprovedBy) == Get(x, ApprovedBy)
          && NotesOf(y) == NotesOf(x)
          && Get(y, RejectionReason) == (if e.reason == "" then Get(x, RejectionReason) else Text(e.reason)))
    && Get(y, ManuallyReviewed) == (if IsIocId(e.id) && !e.action.Edit? then Flag(true) else Get(x, ManuallyReviewed))
  }

  lemma ApprovalMarked(env: Env, st: Stamp, e: Entry, x: Item)
    requires e.action.Approve?
    ensures Marked(st, e, x, ApproveItem(env, st, e, x))
  {
    hide ApplyMods, HashOf;
    ApplyModsKeeps(st, x, e.mods, ExaminerNotes);
    ApplyModsKeeps(st, x, e.mods, RejectedBy);
    ApplyModsKeeps(st, x, e.mods, ManuallyReviewed);
  }

  lemma EditMarked(env: Env, st: Stamp, e: Entry, x: Item)
    requires e.action.Edit?
    ensures Marked(st, e, x, EditItem(env, st, e, x))
  {
    hide ApplyMods, HashOf;
    ApplyModsKeeps(st, x, e.mods, ExaminerNotes);
    ApplyModsKeeps(st, x, e.mods, Status);
    ApplyModsKeeps(st, x, e.mods, ApprovedBy);
    ApplyModsKeeps(st, x, e.mods, RejectedBy);
    ApplyModsKeeps(st, x, e.mods, ManuallyReviewed);
  }

  lemma RejectionMarked(st: Stamp, e: Entry, x: Item)
    requires e.action.Reject?
    ensures Marked(st, e, x, RejectItem(st, e, x))
  {
  }

  lemma EditableKept(x: Item, y: Item, ioc: bool, k: Key)
    requires AgreeOffBooks(x, y, ioc) && Editable(k)
    ensures (k in x <==> k in y) && Get(x, k) == Get(y, k)
  {
  }

  /** A decision that applies marks its item and lands its modifications, rejections none;
      one that does not apply leaves the item alone. */
  lemma DecisionMeans(env: Env, st: Stamp, e: Entry, x: Item, k: Key)
    requires Editable(k)
    ensures var y := DirectItem(env, st, e, x);
            && (!Applies(e, x) ==> y == x)
            && (Applies(e, x) ==>
                  && Marked(st, e, x, y)
                  && (if !e.action.Reject? && Names(e.mods, k) then k in y && Sets(e.mods, k, y[k])
                      else Get(y, k) == Get(x, k)))
  {
    hide ApproveItem, EditItem, RejectItem, ApplyMods, Conflict, Marked, Sets, Names, Content, AgreeOffBooks;
    if Applies(e, x) {
      ModificationsLand(st, x, e.mods, k);
      if e.action.Approve? {
        ApprovalMarked(env, st, e, x);
        ApproveBooks(env, st, e, x);
        EditableKept(ApplyMods(st, x, e.mods), ApproveItem(env, st, e, x), IsIocId(e.id), k);
      } else if e.action.Edit? {
        EditMarked(env, st, e, x);
        EditBooks(env, st, e, x);
        EditableKept(ApplyMods(st, x, e.mods), EditItem(env, st, e, x), false, k);
      } else {
        RejectionMarked(st, e, x);
        RejectBooks(st, e, x);
        EditableKept(x, RejectItem(st, e, x), IsIocId(e.id), k);
      }
    }
  }

  // ---- All decisions --------------------------------------------------------

  /** What becomes of a decision: a log record, an entry of the skip list, or nothing. */
  datatype Fate = Logged(record: LogRecord) | Skipped(skip: Skip) | Ignored

  function FateOf(env: Env, st: Stamp, items: map<ItemId, Item>, e: Entry): Fate {
    if e.id !in items then Skipped(Skip(e.id, NotFound))
    else
      var x := items[e.id];
      if Applies(e, x) then Logged(DirectRecord(e, x, DirectItem(env, st, e, x)))
      else if Conflict(x, e.mods) then Skipped(Skip(e.id, FieldChanged(FirstConflict(x, e.mods))))
      else Ignored
  }

  /** The fates of the decisions in order, each met with the items as those before it left them. */
  function Fates(env: Env, st: Stamp, w: Work, es: seq<Entry>): (fs: seq<Fate>)
    ensures |fs| == |es|
  {
    if es == [] then []
    else
      var n := |es| - 1;
      Fates(env, st, w, es[..n]) + [FateOf(env, st, Direct(env, st, w, es[..n]).items, es[n])]
  }

  function LogsOf(fs: seq<Fate>): seq<LogRecord> {
    if fs == [] then []
    else LogsOf(fs[..|fs|-1]) + (if fs[|fs|-1].Logged? then [fs[|fs|-1].record] else [])
  }

  function SkipsOf(fs: seq<Fate>): seq<Skip> {
    if fs == [] then []
    else SkipsOf(fs[..|fs|-1]) + (if fs[|fs|-1].Skipped? then [fs[|fs|-1].skip] else [])
  }

  /** The log and the skip list are, in order, the fates of the decisions: each decision gives
      one line of one of them or of neither, and no line comes from anywhere else. */
  lemma {:induction false} DecisionsAccountedFor(env: Env, st: Stamp, w: Work, es: seq<Entry>)
    ensures var u := Direct(env, st, w, es);
            && u.log == w.log + LogsOf(Fates(env, st, w, es))
            && u.skipped == w.skipped + SkipsOf(Fates(env, st, w, es))
  {
    hide DirectItem, DirectRecord, FirstConflict, Conflict;
    if es != [] {
      var n := |es| - 1;
      DecisionsAccountedFor(env, st, w, es[..n]);
      var fs := Fates(env, st, w, es);
      assert fs[..n] == Fates(env, st, w, es[..n]);
    }
  }

  /** Each decision's own fate: it is ignored exactly when it edits a known item and modifies
      nothing, skipped exactly when its item is unknown or a field has changed since the review,
      and logged otherwise, under its own id and action. */
  lemma {:induction false} FateMeans(env: Env, st: Stamp, w: Work, es: seq<Entry>, i: nat)
    requires i < |es| && !es[i].action.UnknownAction?
    ensures var f, e := Fates(env, st, w, es)[i], es[i];
            var items := Direct(env, st, w, es[..i]).items;
            && (e.id in items <==> e.id in w.items)
            && (f.Ignored? <==> e.id in w.items && e.action.Edit? && e.mods == [])
            && (f.Skipped? <==>
                  e.id !in w.items || (!e.action.Reject? && Conflict(items[e.id], e.mods)))
            && (f.Skipped? ==> f.skip.id == e.id && (f.skip.reason.NotFound? <==> e.id !in w.items))
            && (f.Skipped? && e.id in items ==> FirstChanged(items[e.id], e.mods, f.skip.reason.field))
            && (f.Logged? ==> RecordFits(env, e, items[e.id], f.record))
  {
    hide DirectItem, FirstConflict, Direct, RecordFits, FirstChanged;
    var n := |es| - 1;
    if i < n {
      FateMeans(env, st, w, es[..n], i);
      assert es[..n][..i] == es[..i];
    } else {
      DirectKeys(env, st, w, es[..n]);
      NoModsNoConflict(es[n]);
      var items := Direct(env, st, w, es[..n]).items;
      if es[n].id in items && Conflict(items[es[n].id], es[n].mods) { FirstIsFirst(items[es[n].id], es[n].mods); }
      if es[n].id in items && Applies(es[n], items[es[n].id]) { RecordMeans(env, st, es[n], items[es[n].id]); }
    }
  }

  /** The field is the first, in the order of the modifications, that is no longer what it was. */
  ghost predicate FirstChanged(x: Item, ms: seq<FieldMod>, k: Key) {
    exists j :: 0 <= j < |ms| && ms[j].field == k && Get(x, ms[j].field) != ms[j].original &&
                forall h :: 0 <= h < j ==> Get(x, ms[h].field) == ms[h].original
  }

  lemma FirstIsFirst(x: Item, ms: seq<FieldMod>)
    requires Conflict(x, ms)
    ensures FirstChanged(x, ms, FirstConflict(x, ms))
  {
    hide FirstConflict;
    var j := FirstOf(x, ms);
    FirstConflictAt(x, ms, j);
  }

  lemma {:induction false} FirstOf(x: Item, ms: seq<FieldMod>) returns (j: nat)
    requires Conflict(x, ms)
    ensures j < |ms| && Get(x, ms[j].field) != ms[j].original
    ensures forall h :: 0 <= h < j ==> Get(x, ms[h].field) == ms[h].original
  {
    if Get(x, ms[0].field) != ms[0].original {
      j := 0;
    } else {
      var i :| 0 <= i < |ms| && Get(x, ms[i].field) != ms[i].original;
      assert ms[1..][i - 1] == ms[i];
      j := FirstOf(x, ms[1..]);
      j := j + 1;
      forall h | 0 <= h < j ensures Get(x, ms[h].field) == ms[h].original {
        if h > 0 { assert ms[1..][h - 1] == ms[h]; }
      }
    }
  }

  /** The log record of a decision: its id and word; for an approval or an edit the digest of the
      modified content; whether the hash the examiner saw was no longer the stored one; for a
      rejection the reason; and no coupling. */
  ghost predicate RecordFits(env: Env, e: Entry, x: Item, r: LogRecord) {
    && r.id == e.id && r.action == WordFor(e.action) && r.coupledFrom == ""
    && (if e.action.Reject? then r.contentHash == "" && r.reason == e.reason
        else r.reason == "" && forall st :: r.contentHash == env.digest(Content(ApplyMods(st, x, e.mods))))
    && (r.stale <==> e.action.Approve? && e.hashAtReview != "" && Get(x, ContentHash) != Text(e.hashAtReview))
  }

  lemma RecordMeans(env: Env, st: Stamp, e: Entry, x: Item)
    requires Applies(e, x)
    ensures RecordFits(env, e, x, DirectRecord(e, x, DirectItem(env, st, e, x)))
  {
    hide ApproveItem, EditItem, RejectItem, ApplyMods, Conflict, Content, AgreeOffBooks;
    if e.action.Approve? { ApproveBooks(env, st, e, x); }
    if e.action.Edit? { EditBooks(env, st, e, x); }
    forall st' ensures Content(ApplyMods(st', x, e.mods)) == Content(ApplyMods(st, x, e.mods)) {
      SameContent(st', st, x, e.mods);
    }
  }

  lemma {:induction false} SameFields(st: Stamp, st': Stamp, x: Item, ms: seq<FieldMod>, k: Key)
    requires k != ExaminerModifications
    ensures k in ApplyMods(st, x, ms) <==> k in ApplyMods(st', x, ms)
    ensures Get(ApplyMods(st, x, ms), k) == Get(ApplyMods(st', x, ms), k)
  {
    hide ModsOf;
    if ms != [] { SameFields(st, st', x, ms[..|ms|-1], k); }
  }

  /** Who modifies, and when, does not enter the content. */
  lemma SameContent(st: Stamp, st': Stamp, x: Item, ms: seq<FieldMod>)
    ensures Content(ApplyMods(st, x, ms)) == Content(ApplyMods(st', x, ms))
  {
    hide ApplyMods;
    var a, b := ApplyMods(st, x, ms), ApplyMods(st', x, ms);
    forall k | Hashed(k) ensures (k in a <==> k in b) && Get(a, k) == Get(b, k) { SameFields(st, st', x, ms, k); }
    SameHashed(a, b);
  }

  lemma SameHashed(x: Item, y: Item)
    requires forall k :: Hashed(k) ==> (k in x <==> k in y) && Get(x, k) == Get(y, k)
    ensures Content(x) == Content(y)
  {
    ContentMeans(x, y);
  }

  function WordFor(a: Action): Word {
    match a
    case Approve => Approved
    case Edit => Edited
    case _ => Rejected
  }

  lemma NoModsNoConflict(e: Entry)
    ensures e.mods == [] ==> forall x :: !Conflict(x, e.mods)
  {
  }

  // ---- The order of decisions -----------------------------------------------

  function Turn(a: Action): nat {
    match a
    case Approve => 1
    case Edit => 2
    case Reject => 3
    case UnknownAction => 4
  }

  lemma {:induction false} SelectKeeps(es: seq<Entry>, a: Action)
    ensures forall i :: 0 <= i < |Select(es, a)| ==> Select(es, a)[i].action == a
    ensures forall e :: multiset(Select(es, a))[e] == if e.action == a then multiset(es)[e] else 0
  {
    if es != [] {
      SelectKeeps(es[..|es|-1], a);
      assert es == es[..|es|-1] + [es[|es|-1]];
    }
  }

  /** Where in the delta the i-th selected entry stands; later ones stand later. */
  lemma {:induction false} SelectInOrder(es: seq<Entry>, a: Action, i: nat, j: nat) returns (p: nat, q: nat)
    requires i < j < |Select(es, a)|
    ensures p < q < |es| && es[p] == Select(es, a)[i] && es[q] == Select(es, a)[j]
  {
    var n := |es| - 1;
    if j < |Select(es[..n], a)| {
      p, q := SelectInOrder(es[..n], a, i, j);
    } else {
      assert Select(es[..n], a)[i] in Select(es[..n], a);
      SelectMembersOnly(es[..n], a);
      p :| 0 <= p < n && es[..n][p] == Select(es[..n], a)[i];
      q := n;
    }
  }

  lemma {:induction false} SelectMembersOnly(es: seq<Entry>, a: Action)
    ensures forall e :: e in Select(es, a) ==> e in es
  {
    if es != [] { SelectMembersOnly(es[..|es|-1], a); }
  }

  /** A commit works through its delta approvals first, then edits, then rejections, each known
      decision as often as the delta has it and in the delta's order among its own kind. */
  lemma OrderMeans(es: seq<Entry>)
    ensures forall i, j :: 0 <= i < j < |Ordered(es)| ==> Turn(Ordered(es)[i].action) <= Turn(Ordered(es)[j].action)
    ensures forall e :: multiset(Ordered(es))[e] == if e.action.UnknownAction? then 0 else multiset(es)[e]
    ensures forall a :: a != UnknownAction ==> Select(Ordered(es), a) == Select(es, a)
  {
    hide Ordered, Turn;
    TurnsGrow(es);
    forall e ensures multiset(Ordered(es))[e] == if e.action.UnknownAction? then 0 else multiset(es)[e] {
      CountKept(es, e);
    }
    forall k: Action | k != UnknownAction ensures Select(Ordered(es), k) == Select(es, k) { SelectKept(es, k); }
  }

  lemma TurnsGrow(es: seq<Entry>)
    ensures forall i, j :: 0 <= i < j < |Ordered(es)| ==> Turn(Ordered(es)[i].action) <= Turn(Ordered(es)[j].action)
  {
    hide Select;
    var a, b, c := Select(es, Approve), Select(es, Edit), Select(es, Reject);
    SelectKeeps(es, Approve);
    SelectKeeps(es, Edit);
    SelectKeeps(es, Reject);
    forall i | 0 <= i < |Ordered(es)|
      ensures Turn(Ordered(es)[i].action) == if i < |a| then 1 else if i < |a| + |b| then 2 else 3
    {
      assert Ordered(es)[i] == if i < |a| then a[i] else if i < |a| + |b| then b[i - |a|] else c[i - |a| - |b|];
    }
  }

  lemma CountKept(es: seq<Entry>, e: Entry)
    ensures multiset(Ordered(es))[e] == if e.action.UnknownAction? then 0 else multiset(es)[e]
  {
    hide Select;
    SelectKeeps(es, Approve);
    SelectKeeps(es, Edit);
    SelectKeeps(es, Reject);
    var a, b, c := Select(es, Approve), Select(es, Edit), Select(es, Reject);
    assert multiset(a + b + c) == multiset(a) + multiset(b) + multiset(c);
  }

  lemma SelectKept(es: seq<Entry>, k: Action)
    requires k != UnknownAction
    ensures Select(Ordered(es), k) == Select(es, k)
  {
    hide Select;
    var a, b, c := Select(es, Approve), Select(es, Edit), Select(es, Reject);
    SelectKeeps(es, Approve);
    SelectKeeps(es, Edit);
    SelectKeeps(es, Reject);
    SelectJoin(a + b, c, k);
    SelectJoin(a, b, k);
    SelectOf(a, Approve, k);
    SelectOf(b, Edit, k);
    SelectOf(c, Reject, k);
  }

  lemma {:induction false} SelectJoin(x: seq<Entry>, y: seq<Entry>, a: Action)
    ensures Select(x + y, a) == Select(x, a) + Select(y, a)
  {
    if y == [] {
      assert x + y == x;
    } else {
      SelectJoin(x, y[..|y|-1], a);
      assert (x + y)[..|x + y|-1] == x + y[..|y|-1];
    }
  }

  lemma SelectLast(x: seq<Entry>, k: Action)
    requires x != []
    ensures Select(x, k) == if x[|x|-1].action == k then Select(x[..|x|-1], k) + [x[|x|-1]] else Select(x[..|x|-1], k)
  {
  }

  lemma {:induction false} SelectOf(x: seq<Entry>, a: Action, k: Action)
    requires forall i :: 0 <= i < |x| ==> x[i].action == a
    ensures Select(x, k) == if k == a then x else []
  {
    hide Select;
    if x == [] {
      SelectNone(k);
    } else {
      var n := |x| - 1;
      assert forall i :: 0 <= i < n ==> x[..n][i] == x[i];
      SelectOf(x[..n], a, k);
      SelectLast(x, k);
      assert x == x[..n] + [x[n]];
    }
  }

  lemma SelectNone(k: Action)
    ensures Select([], k) == []
  {
  }

  // ---- What coupling and cascade write --------------------------------------

  /** Nothing but these keys differs. */
  ghost predicate OnlyOn(x: Item, y: Item, ks: set<Key>) {
    forall k :: k !in ks ==> (k in x <==> k in y) && Get(y, k) == Get(x, k)
  }

  /** Approved in passing: status, who and when, and nothing else but perhaps `more`. */
  ghost predicate PassedOn(st: Stamp, x: Item, y: Item, more: set<Key>) {
    && Get(y, Status) == State(Approved) && Get(y, ModifiedAt) == Text(st.now)
    && Get(y, ApprovedAt) == Text(st.now) && Get(y, ApprovedBy) == Text(st.examiner)
    && OnlyOn(x, y, {Status, ApprovedAt, ApprovedBy, ModifiedAt} + more)
  }

  /** Rejected in passing: status, who, when and why, and nothing else but perhaps `more`. */
  ghost predicate TurnedDown(st: Stamp, x: Item, y: Item, why: string, more: set<Key>) {
    && Get(y, Status) == State(Rejected) && Get(y, ModifiedAt) == Text(st.now)
    && Get(y, RejectedAt) == Text(st.now) && Get(y, RejectedBy) == Text(st.examiner)
    && Get(y, RejectionReason) == Text(why)
    && OnlyOn(x, y, {Status, RejectedAt, RejectedBy, RejectionReason, ModifiedAt} + more)
  }

  lemma CoupledApproval(env: Env, st: Stamp, x: Item, ss: Value)
    requires CoupleApproves(x, ss)
    ensures var y := CoupleItem(env, st, x, ss);
            PassedOn(st, x, y, {ContentHash}) && Get(y, ContentHash) == Text(env.digest(Content(x)))
  {
    hide Content, AgreeOffBooks, CoupleApproves, CoupleRejects;
    CoupleBooks(env, st, x, ss);
  }

  lemma CoupledRejection(env: Env, st: Stamp, x: Item, ss: Value)
    requires CoupleRejects(x, ss) && !CoupleApproves(x, ss)
    ensures TurnedDown(st, x, CoupleItem(env, st, x, ss), "Source finding rejected", {})
  {
    hide CoupleApproves, CoupleRejects;
  }

  /** One visit of the coupling pass to an item auto-created from a known source and not modified
      by an examiner: it takes an approval or rejection it does not have yet, and logs it under the
      source's id; otherwise nothing happens. */
  lemma FollowMeans(env: Env, st: Stamp, w: Work, id: ItemId, s: ItemId)
    requires id in w.items && s in w.items && s != "" && Get(w.items[id], AutoCreatedFrom) == Text(s)
    requires !Truthy(Get(w.items[id], ExaminerModifications))
    ensures var x, u := w.items[id], CoupleStep(env, st, w, id);
            var ss, y := Get(w.items[s], Status), u.items[id];
            if ss == State(Approved) && Get(x, Status) != State(Approved) then
              && PassedOn(st, x, y, {ContentHash}) && Get(y, ContentHash) == Text(env.digest(Content(x)))
              && u == w.(items := w.items[id := y],
                         log := w.log + [LogRecord(id, Approved, env.digest(Content(x)), false, s, "")])
            else if ss == State(Rejected) && Get(x, Status) != State(Rejected) then
              && TurnedDown(st, x, y, "Source finding rejected", {})
              && u == w.(items := w.items[id := y],
                         log := w.log + [LogRecord(id, Rejected, "", false, s, "Source finding rejected")])
            else u == w
  {
    hide Content, Truthy, CoupleItem, PassedOn, TurnedDown;
    var x := w.items[id];
    var ss := SourceStatus(w.items, x);
    assert w.items[id := x] == w.items && w.log + [] == w.log;
    if CoupleApproves(x, ss) {
      CoupledApproval(env, st, x, ss);
    } else if CoupleRejects(x, ss) {
      CoupledRejection(env, st, x, ss);
    } else {
      Unmoved(env, st, x, ss);
    }
  }

  /** Any other item is passed over. */
  lemma FollowsNothing(env: Env, st: Stamp, w: Work, id: ItemId)
    requires id in w.items
    requires forall s :: s in w.items && s != "" && Get(w.items[id], AutoCreatedFrom) == Text(s) ==>
               Truthy(Get(w.items[id], ExaminerModifications))
    ensures CoupleStep(env, st, w, id) == w
  {
    hide CoupleItem, Truthy;
    var x := w.items[id];
    assert w.items[id := x] == w.items && w.log + [] == w.log;
    Unmoved(env, st, x, SourceStatus(w.items, x));
  }

  ghost predicate AllAre(srcs: seq<Item>, word: Word) {
    forall i :: 0 <= i < |srcs| ==> Get(srcs[i], Status) == State(word)
  }

  lemma CascadedItem(env: Env, st: Stamp, x: Item, srcs: seq<Item>)
    ensures var y := CascadeItem(env, st, x, srcs);
            && (CascadeApproves(x, srcs) ==> PassedOn(st, x, y, {Confidence}))
            && (CascadeRejects(x, srcs) && !CascadeApproves(x, srcs) ==>
                  TurnedDown(st, x, y, "All source findings rejected", {Confidence}))
            && (!CascadeApproves(x, srcs) && !CascadeRejects(x, srcs) ==>
                  OnlyOn(x, y, {Confidence}) && (!CascadeRanks(env, x, srcs) ==> y == x))
  {
    hide CascadeApproves, CascadeRejects, CascadeRanks, Active, Best;
  }

  /** One visit of the cascade: what it writes on the IOC and in the log besides the confidence. */
  lemma SettleMeans(env: Env, st: Stamp, w: Work, id: ItemId)
    requires id in w.items && CascadeStep(env, st, w, id).Some?
    ensures var x, u := w.items[id], CascadeStep(env, st, w, id).value;
            var srcs := Sources(w.items, x);
            var open := !Truthy(Get(x, ManuallyReviewed)) && srcs != [];
            && id in u.items && u.items == w.items[id := u.items[id]] && u.skipped == w.skipped
            && var y := u.items[id];
               if open && AllAre(srcs, Approved) && Get(x, Status) != State(Approved) then
                 && PassedOn(st, x, y, {Confidence}) && u.iocsModified
                 && u.log == w.log + [LogRecord(id, Approved, StoredHash(x), false, "ioc_cascade", "")]
               else if open && AllAre(srcs, Rejected) && Get(x, Status) != State(Rejected) then
                 && TurnedDown(st, x, y, "All source findings rejected", {Confidence}) && u.iocsModified
                 && u.log == w.log + [LogRecord(id, Rejected, "", false, "ioc_cascade", "All source findings rejected")]
               else OnlyOn(x, y, {Confidence}) && u.log == w.log && (y != x ==> u.iocsModified)
  {
    hide CascadeRaises, Sources, Truthy, CascadeItem, CascadeRanks, PassedOn, TurnedDown, OnlyOn, StoredHash;
    assert w.log + [] == w.log;
    CascadedItem(env, st, w.items[id], Sources(w.items, w.items[id]));
  }

  /** The cascade raises on an unreviewed IOC exactly when some source that is not rejected has a
      true confidence that is no text, or the one it picks has none while the IOC has. */
  lemma RaisesMeans(env: Env, x: Item, srcs: seq<Item>)
    ensures CascadeRaises(env, x, srcs) <==>
              && !Truthy(Get(x, ManuallyReviewed)) && srcs != []
              && (|| (exists y :: y in srcs && Get(y, Status) != State(Rejected) &&
                                  !Get(y, Confidence).Text? && Truthy(Get(y, Confidence)))
                  || (Active(srcs) != [] && Confidence !in Best(env, Active(srcs)) && Get(x, Confidence) != Null))
  {
    hide Active, Best, Truthy;
    forall y ensures y in Active(srcs) <==> y in srcs && Get(y, Status) != State(Rejected) { ActiveMembers(srcs, y); }
    if i :| 0 <= i < |Active(srcs)| && !Rankable(Active(srcs)[i]) { assert Active(srcs)[i] in Active(srcs); }
    if y :| y in srcs && Get(y, Status) != State(Rejected) && !Get(y, Confidence).Text? && Truthy(Get(y, Confidence)) {
      assert y in Active(srcs);
      var i :| 0 <= i < |Active(srcs)| && Active(srcs)[i] == y;
      assert !Rankable(Active(srcs)[i]);
    }
  }

  /** The IOC file is saved only when some IOC has been logged or the cascade has written one. */
  lemma SavesMeans(lay: Layout, w: Work)
    ensures SavesIocs(lay, w) <==> lay.iocs != [] && (w.iocsModified || exists r :: r in w.log && IsIocId(r.id))
  {
    if r :| r in w.log && IsIocId(r.id) {
      var i :| 0 <= i < |w.log| && w.log[i] == r;
      assert IsIocId(w.log[i].id);
    }
  }

  // ---- A chain one pass does not close --------------------------------------

  function Follower(source: ItemId): Item {
    map[AutoCreatedFrom := Text(source)]
  }

  lemma FollowerFollows(source: ItemId)
    requires source != ""
    ensures SourceOf(Follower(source)) == Some(source) && Coupled(Follower(source))
    ensures Get(Follower(source), Status) == Null
  {
  }

  /** Three items: a root, its follower, and the follower's follower. */
  function Chain(root: Item, f: ItemId, a: ItemId, b: ItemId): (c: map<ItemId, Item>)
    ensures c.Keys == {f, a, b}
  {
    map[f := root, a := Follower(f), b := Follower(a)]
  }

  /** The case files list the last follower before the one it follows. */
  function Backward(f: ItemId, a: ItemId, b: ItemId): Layout {
    Layout([f], [b, a], [])
  }

  lemma BackwardFits(root: Item, f: ItemId, a: ItemId, b: ItemId)
    requires f != a && f != b && a != b && !IsIocId(f) && !IsIocId(a) && !IsIocId(b)
    ensures WellFormed(Backward(f, a, b), Chain(root, f, a, b)) && Backward(f, a, b).All() == [f, b, a]
  {
    hide IsIocId, Follower;
  }

  lemma RootStands(x: Item)
    requires AutoCreatedFrom !in x
    ensures SourceOf(x).None? && !Coupled(x)
  {
  }

  /** A plain approval of the root leaves the rest of the chain alone. */
  lemma RootApproved(env: Env, st: Stamp, e: Entry, f: ItemId, a: ItemId, b: ItemId)
    requires f != a && f != b && a != b && !IsIocId(f) && e.id == f && e.action.Approve? && e.mods == []
    ensures Ordered([e]) == [e]
    ensures var root := ApproveItem(env, st, e, map[]);
            && Direct(env, st, Loaded(Chain(map[], f, a, b)), [e]).items == Chain(root, f, a, b)
            && !Coupled(root) && Get(root, Status) == State(Approved)
  {
    hide ApproveItem, Follower, DirectRecord, Coupled, AgreeOffBooks, Content;
    assert [e][..0] == [] && Select([], Approve) == [] && Select([], Edit) == [] && Select([], Reject) == [];
    assert Direct(env, st, Loaded(Chain(map[], f, a, b)), []) == Loaded(Chain(map[], f, a, b));
    NoModsNoConflict(e);
    ApproveBooks(env, st, e, map[]);
    BooksAgree(env, map[], ApproveItem(env, st, e, map[]));
    RootStands(map[]);
  }

  /** The first follower will be approved, the second will not. */
  lemma BackwardIsOutrun(root: Item, f: ItemId, a: ItemId, b: ItemId)
    requires f != a && f != b && a != b && f != "" && a != ""
    requires !Coupled(root) && Get(root, Status) == State(Approved)
    ensures Outrun(Chain(root, f, a, b), [f, b, a], 1)
    ensures EndStatus(Chain(root, f, a, b), [f, b, a], 2) == State(Approved)
  {
    hide Follower, Coupled, SourceOf, IndexOf;
    var c, ids := Chain(root, f, a, b), [f, b, a];
    FollowerFollows(f);
    FollowerFollows(a);
    assert ids[..1] == [f] && ids[..2] == [f, b];
    assert EndStatus(c, ids, 0) == State(Approved);
    assert IndexOf([f, b], f) == 0 by { assert [f, b][0] == f && [f, b][1] == b; }
    assert EndStatus(c, ids, 2) == State(Approved);
    assert EndStatus(c, ids, 1) == Null;
    assert SourceOf(c[ids[1]]) == Some(ids[2]);
  }

  /** A commit that approves the root approves its follower, and leaves the follower's follower
      behind when the case files list it first. */
  lemma BackwardChainIsMissed(env: Env, st: Stamp, e: Entry, f: ItemId, a: ItemId, b: ItemId)
    requires f != a && f != b && a != b && f != "" && a != "" && !IsIocId(f) && !IsIocId(a) && !IsIocId(b)
    requires e.id == f && e.action.Approve? && e.mods == []
    ensures WellFormed(Backward(f, a, b), Chain(map[], f, a, b))
    ensures var r := Commit(env, st, Backward(f, a, b), Chain(map[], f, a, b), [e]);
            r.Some? && Get(r.value.items[a], Status) == State(Approved) && Behind(r.value.items, b)
  {
    hide ApproveItem, Follower, Direct, Couple, Coupled, Outrun, EndStatus, Behind, IsIocId, SourceOf, WellFormed, Ordered;
    var lay, items := Backward(f, a, b), Chain(map[], f, a, b);
    var root := ApproveItem(env, st, e, map[]);
    BackwardFits(map[], f, a, b);
    BackwardFits(root, f, a, b);
    RootApproved(env, st, e, f, a, b);
    BackwardIsOutrun(root, f, a, b);
    FollowerFollows(a);
    var d := Direct(env, st, Loaded(items), [e]);
    assert Commit(env, st, lay, items, [e]).Some?;
    CommitLeavesBehind(env, st, lay, items, [e], 1);
    EndStatusIs(env, st, d, lay.All(), 2);
    AfterCascade(env, st, lay, items, [e], a);
  }
}
