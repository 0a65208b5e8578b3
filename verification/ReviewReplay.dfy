/** Replaying a delta on items that an interrupted commit has already partly rewritten.
    Outcomes are compared up to who stamped them and when. */
module ReviewReplay {
  import opened ReviewModel
  import opened ReviewEngine
  import opened ReviewBooks
  import opened ReviewCoupling

  // ---- Items up to their stamps ---------------------------------------------

  function EraseMods(v: Value): Value {
    match v
    case Mods(m) => Mods(map f | f in m :: Modification(m[f].original, m[f].modified, "", ""))
    case _ => v
  }

  function EraseAt(k: Key, v: Value): Value {
    if k.ExaminerModifications? then EraseMods(v) else v
  }

  /** The item without its stamps and notes: its status, content, hash, rejection reason
      and the record of what was modified from what to what remain. */
  function Erase(x: Item): Item {
    map k | k in x && !Stamped(k) :: EraseAt(k, x[k])
  }

  lemma EraseSet(x: Item, k: Key, v: Value)
    ensures Erase(x[k := v]) == if Stamped(k) then Erase(x) else Erase(x)[k := EraseAt(k, v)]
  {
    hide EraseMods;
  }

  lemma EraseGet(x: Item, y: Item, k: Key)
    requires Erase(x) == Erase(y) && !Stamped(k)
    ensures k in x <==> k in y
    ensures EraseAt(k, Get(x, k)) == EraseAt(k, Get(y, k))
    ensures k != ExaminerModifications ==> Get(x, k) == Get(y, k)
  {
    hide EraseMods;
    assert k in x <==> k in Erase(x);
    assert k in y <==> k in Erase(y);
    if k in x { assert Erase(x)[k] == Erase(y)[k]; }
  }

  lemma EraseContent(env: Env, x: Item, y: Item)
    requires Erase(x) == Erase(y)
    ensures Content(x) == Content(y) && HashOf(env, x) == HashOf(env, y)
  {
    hide Erase, EraseMods;
    forall k | Hashed(k) ensures (k in x <==> k in y) && Get(x, k) == Get(y, k) {
      EraseGet(x, y, k);
    }
    assert Content(x) == Content(y);
  }

  lemma EraseModified(x: Item, y: Item)
    requires Erase(x) == Erase(y)
    ensures EraseMods(Mods(ModsOf(x))) == EraseMods(Mods(ModsOf(y)))
    ensures Truthy(Get(x, ExaminerModifications)) == Truthy(Get(y, ExaminerModifications))
  {
    hide Erase;
    EraseGet(x, y, ExaminerModifications);
    var a, b := Get(x, ExaminerModifications), Get(y, ExaminerModifications);
    if a.Mods? {
      assert EraseMods(a).mods.Keys == a.mods.Keys;
      assert EraseMods(b).mods.Keys == b.mods.Keys;
      EmptyMap(a.mods);
      EmptyMap(b.mods);
    }
  }

  lemma EmptyMap(m: map<Key, Modification>)
    ensures m == map[] <==> m.Keys == {}
  {
    if m.Keys == {} { assert forall k :: k !in m; }
  }

  // ---- The steps, up to stamps ----------------------------------------------

  predicate OnlyEditable(ms: seq<FieldMod>) {
    forall i :: 0 <= i < |ms| ==> Editable(ms[i].field)
  }

  /** A modifications dictionary names each field once. */
  predicate DistinctFields(ms: seq<FieldMod>) {
    forall i, j :: 0 <= i < j < |ms| ==> ms[i].field != ms[j].field
  }

  lemma ApplyModErased(st: Stamp, x: Item, m: FieldMod)
    requires Editable(m.field)
    ensures Erase(ApplyMod(st, x, m)) ==
            Erase(x)[m.field := m.modified]
                    [ExaminerModifications :=
                      Mods(EraseMods(Mods(ModsOf(x))).mods[m.field := Modification(m.original, m.modified, "", "")])]
  {
    hide Erase, ModsOf;
    var mods := ModsOf(x)[m.field := Modification(m.original, m.modified, st.examiner, st.now)];
    EraseSet(x, m.field, m.modified);
    EraseSet(x[m.field := m.modified], ExaminerModifications, Mods(mods));
    assert EraseMods(Mods(mods)).mods ==
           EraseMods(Mods(ModsOf(x))).mods[m.field := Modification(m.original, m.modified, "", "")];
  }

  lemma {:induction false} ApplyModsRespects(st: Stamp, st': Stamp, x: Item, x': Item, ms: seq<FieldMod>)
    requires Erase(x) == Erase(x') && OnlyEditable(ms)
    ensures Erase(ApplyMods(st, x, ms)) == Erase(ApplyMods(st', x', ms))
  {
    hide Erase, EraseMods, ApplyMod, ModsOf;
    if ms != [] {
      var n := |ms| - 1;
      ApplyModsRespects(st, st', x, x', ms[..n]);
      var y, y' := ApplyMods(st, x, ms[..n]), ApplyMods(st', x', ms[..n]);
      EraseModified(y, y');
      ApplyModErased(st, y, ms[n]);
      ApplyModErased(st', y', ms[n]);
    }
  }

  function Hashing(env: Env, x: Item): Value {
    Text(HashOf(env, x))
  }

  lemma ApproveErased(env: Env, st: Stamp, e: Entry, x: Item)
    ensures var y := ApplyMods(st, x, e.mods);
            Erase(ApproveItem(env, st, e, x)) ==
            Shielded(Erase(y)[ContentHash := Hashing(env, y)][Status := State(Approved)], e.id)
  {
    hide Erase, ApplyMods, NotesOf, Content;
    var y := ApplyMods(st, x, e.mods);
    var n := AddNote(st, y, e.note);
    if e.note != "" {
      var notes := Notes(NotesOf(y) + [Note(e.note, st.examiner, st.now)]);
      EraseSet(y, ExaminerNotes, notes);
      UnhashedUpdate(env, y, ExaminerNotes, notes);
    }
    var a := n[ContentHash := Hashing(env, n)];
    var b := a[Status := State(Approved)];
    var c := b[ApprovedAt := Text(st.now)];
    var d := c[ApprovedBy := Text(st.examiner)];
    EraseSet(n, ContentHash, Hashing(env, n));
    EraseSet(a, Status, State(Approved));
    EraseSet(b, ApprovedAt, Text(st.now));
    EraseSet(c, ApprovedBy, Text(st.examiner));
    EraseSet(d, ModifiedAt, Text(st.now));
    EraseSet(d[ModifiedAt := Text(st.now)], ManuallyReviewed, Flag(true));
  }

  lemma EditErased(env: Env, st: Stamp, e: Entry, x: Item)
    ensures var y := ApplyMods(st, x, e.mods);
            Erase(EditItem(env, st, e, x)) == Erase(y)[ContentHash := Hashing(env, y)]
  {
    hide Erase, ApplyMods, Content;
    var y := ApplyMods(st, x, e.mods);
    EraseSet(y, ContentHash, Hashing(env, y));
    EraseSet(y[ContentHash := Hashing(env, y)], ModifiedAt, Text(st.now));
  }

  function Reasoned(x: Item, reason: string): Item {
    if reason == "" then x else x[RejectionReason := Text(reason)]
  }

  function Shielded(x: Item, id: ItemId): Item {
    if IsIocId(id) then x[ManuallyReviewed := Flag(true)] else x
  }

  lemma RejectErased(st: Stamp, e: Entry, x: Item)
    ensures Erase(RejectItem(st, e, x)) ==
            Shielded(Reasoned(Erase(x)[Status := State(Rejected)], e.reason), e.id)
  {
    hide Erase;
    var a := x[Status := State(Rejected)];
    var b := a[RejectedAt := Text(st.now)];
    var c := b[RejectedBy := Text(st.examiner)];
    var d := Reasoned(c, e.reason);
    var f := Shielded(d, e.id);
    EraseSet(x, Status, State(Rejected));
    EraseSet(a, RejectedAt, Text(st.now));
    EraseSet(b, RejectedBy, Text(st.examiner));
    EraseSet(c, RejectionReason, Text(e.reason));
    EraseSet(d, ManuallyReviewed, Flag(true));
    EraseSet(f, ModifiedAt, Text(st.now));
  }

  lemma CoupleErased(env: Env, st: Stamp, x: Item, ss: Value)
    ensures Erase(CoupleItem(env, st, x, ss)) ==
            if CoupleApproves(x, ss) then
              Erase(x)[Status := State(Approved)][ContentHash := Hashing(env, x)]
            else if CoupleRejects(x, ss) then
              Erase(x)[Status := State(Rejected)][RejectionReason := Text("Source finding rejected")]
            else Erase(x)
  {
    hide Erase, Coupled, Content;
    if CoupleApproves(x, ss) {
      var a := x[Status := State(Approved)];
      var b := a[ApprovedAt := Text(st.now)];
      var c := b[ApprovedBy := Text(st.examiner)];
      var d := c[ModifiedAt := Text(st.now)];
      UnhashedUpdate(env, x, Status, State(Approved));
      UnhashedUpdate(env, a, ApprovedAt, Text(st.now));
      UnhashedUpdate(env, b, ApprovedBy, Text(st.examiner));
      UnhashedUpdate(env, c, ModifiedAt, Text(st.now));
      EraseSet(x, Status, State(Approved));
      EraseSet(a, ApprovedAt, Text(st.now));
      EraseSet(b, ApprovedBy, Text(st.examiner));
      EraseSet(c, ModifiedAt, Text(st.now));
      EraseSet(d, ContentHash, Hashing(env, d));
    } else if CoupleRejects(x, ss) {
      var a := x[Status := State(Rejected)];
      var b := a[RejectedAt := Text(st.now)];
      var c := b[RejectedBy := Text(st.examiner)];
      var d := c[RejectionReason := Text("Source finding rejected")];
      EraseSet(x, Status, State(Rejected));
      EraseSet(a, RejectedAt, Text(st.now));
      EraseSet(b, RejectedBy, Text(st.examiner));
      EraseSet(c, RejectionReason, Text("Source finding rejected"));
      EraseSet(d, ModifiedAt, Text(st.now));
    }
  }

  // ---- Stamps make no difference --------------------------------------------

  lemma CoupledRespects(x: Item, x': Item)
    requires Erase(x) == Erase(x')
    ensures SourceOf(x) == SourceOf(x') && Coupled(x) == Coupled(x') && Get(x, Status) == Get(x', Status)
  {
    hide Erase;
    EraseGet(x, x', AutoCreatedFrom);
    EraseGet(x, x', Status);
    EraseModified(x, x');
  }

  lemma CoupleRespects(env: Env, st: Stamp, st': Stamp, x: Item, x': Item, ss: Value)
    requires Erase(x) == Erase(x')
    ensures Erase(CoupleItem(env, st, x, ss)) == Erase(CoupleItem(env, st', x', ss))
  {
    hide Erase, CoupleItem, Content, Coupled;
    CoupledRespects(x, x');
    EraseContent(env, x, x');
    CoupleErased(env, st, x, ss);
    CoupleErased(env, st', x', ss);
  }

  lemma ConflictRespects(x: Item, x': Item, ms: seq<FieldMod>)
    requires forall k :: Editable(k) ==> Get(x, k) == Get(x', k)
    requires OnlyEditable(ms)
    ensures Conflict(x, ms) == Conflict(x', ms)
  {
    hide Editable, Get;
  }

  lemma DirectRespects(env: Env, st: Stamp, st': Stamp, e: Entry, x: Item, x': Item)
    requires Erase(x) == Erase(x') && OnlyEditable(e.mods)
    ensures Erase(DirectItem(env, st, e, x)) == Erase(DirectItem(env, st', e, x'))
  {
    hide Erase, ApproveItem, EditItem, RejectItem, ApplyMods, Conflict, Content;
    forall k | Editable(k) ensures Get(x, k) == Get(x', k) { EraseGet(x, x', k); }
    ConflictRespects(x, x', e.mods);
    ApplyModsRespects(st, st', x, x', e.mods);
    EraseContent(env, ApplyMods(st, x, e.mods), ApplyMods(st', x', e.mods));
    match e.action
    case Approve =>
      ApproveErased(env, st, e, x);
      ApproveErased(env, st', e, x');
    case Edit =>
      EditErased(env, st, e, x);
      EditErased(env, st', e, x');
    case Reject =>
      RejectErased(st, e, x);
      RejectErased(st', e, x');
    case UnknownAction =>
  }

  // ---- Doing it again changes nothing ---------------------------------------

  /** The item already carries every modification, and the record of each. */
  ghost predicate Carries(y: Item, ms: seq<FieldMod>) {
    && Get(y, ExaminerModifications).Mods?
    && forall i :: 0 <= i < |ms| ==>
         && ms[i].field in y && y[ms[i].field] == ms[i].modified
         && ms[i].field in ModsOf(y)
         && ModsOf(y)[ms[i].field].original == ms[i].original
         && ModsOf(y)[ms[i].field].modified == ms[i].modified
  }

  lemma {:induction false} ModsCarried(st: Stamp, x: Item, ms: seq<FieldMod>)
    requires OnlyEditable(ms) && DistinctFields(ms) && ms != []
    ensures Carries(ApplyMods(st, x, ms), ms)
  {
    var n := |ms| - 1;
    var y := ApplyMods(st, x, ms[..n]);
    if n > 0 { ModsCarried(st, x, ms[..n]); }
    var z := ApplyMod(st, y, ms[n]);
    forall i | 0 <= i < |ms|
      ensures ms[i].field in z && z[ms[i].field] == ms[i].modified && ms[i].field in ModsOf(z)
      ensures ModsOf(z)[ms[i].field].original == ms[i].original
      ensures ModsOf(z)[ms[i].field].modified == ms[i].modified
    {
      if i < n { assert ms[..n][i] == ms[i]; }
    }
  }

  lemma {:induction false} Reapplied(st: Stamp, y: Item, ms: seq<FieldMod>)
    requires OnlyEditable(ms) && Carries(y, ms)
    ensures Erase(ApplyMods(st, y, ms)) == Erase(y)
  {
    hide Erase, EraseMods, ApplyMod;
    if ms != [] {
      var n := |ms| - 1;
      assert forall i :: 0 <= i < n ==> ms[..n][i] == ms[i];
      Reapplied(st, y, ms[..n]);
      var z := ApplyMods(st, y, ms[..n]);
      ApplyModErased(st, z, ms[n]);
      EraseModified(z, y);
      CarriedAlready(y, ms[n]);
    }
  }

  lemma CarriedAlready(y: Item, m: FieldMod)
    requires Editable(m.field) && m.field in y && y[m.field] == m.modified
    requires Get(y, ExaminerModifications).Mods? && m.field in ModsOf(y)
    requires ModsOf(y)[m.field].original == m.original && ModsOf(y)[m.field].modified == m.modified
    ensures Erase(y)[m.field := m.modified]
                    [ExaminerModifications :=
                      Mods(EraseMods(Mods(ModsOf(y))).mods[m.field := Modification(m.original, m.modified, "", "")])]
            == Erase(y)
  {
    assert EraseMods(Mods(ModsOf(y))).mods[m.field := Modification(m.original, m.modified, "", "")] ==
           EraseMods(Mods(ModsOf(y))).mods;
  }

  lemma CoupleTwice(env: Env, st: Stamp, st': Stamp, x: Item, ss: Value)
    ensures var y := CoupleItem(env, st, x, ss);
            CoupleItem(env, st', y, ss) == y
  {
  }

  /** Coupling leaves the editable fields, the source and the examiner's record alone. */
  lemma CoupleItemFrame(env: Env, st: Stamp, x: Item, ss: Value)
    ensures var y := CoupleItem(env, st, x, ss);
            && (forall k :: Editable(k) ==> Get(y, k) == Get(x, k))
            && Get(y, ExaminerModifications) == Get(x, ExaminerModifications)
            && SourceOf(y) == SourceOf(x) && Coupled(y) == Coupled(x)
            && HashOf(env, y) == HashOf(env, x)
  {
    hide Truthy, AgreeOffBooks, Content, CoupleItem, CoupleApproves, CoupleRejects, SourceOf;
    CoupleBooks(env, st, x, ss);
    BooksAgree(env, x, CoupleItem(env, st, x, ss));
  }

  lemma CarryingIsUncoupled(x: Item, ms: seq<FieldMod>)
    requires Carries(x, ms) && ms != []
    ensures !Coupled(x)
  {
    assert ms[0].field in ModsOf(x);
  }

  /** Approving or editing with modifications, then doing it again. */
  lemma ModifiedTwice(env: Env, st: Stamp, st': Stamp, e: Entry, x: Item)
    requires e.action.Approve? || e.action.Edit?
    requires !IsIocId(e.id) && Applies(e, x)
    requires OnlyEditable(e.mods) && DistinctFields(e.mods) && e.mods != []
    ensures var d := DirectItem(env, st, e, x);
            !Coupled(d) && Erase(DirectItem(env, st', e, d)) == Erase(d)
  {
    hide Erase, ApproveItem, EditItem, ApplyMods, Conflict, Content, Carries, EraseMods;
    var y := ApplyMods(st, x, e.mods);
    var d := DirectItem(env, st, e, x);
    ModsCarried(st, x, e.mods);
    CarriesThroughStamps(env, st, e, x);
    CarryingIsUncoupled(d, e.mods);
    if Applies(e, d) {
      Reapplied(st', d, e.mods);
      EraseContent(env, ApplyMods(st', d, e.mods), d);
      if e.action.Approve? {
        ApproveErased(env, st, e, x);
        ApproveErased(env, st', e, d);
      } else {
        EditErased(env, st, e, x);
        EditErased(env, st', e, d);
      }
    }
  }

  /** The bookkeeping around a modification leaves it carried and its content in place. */
  lemma CarriesThroughStamps(env: Env, st: Stamp, e: Entry, x: Item)
    requires e.action.Approve? || e.action.Edit?
    requires !IsIocId(e.id) && Applies(e, x) && OnlyEditable(e.mods)
    requires Carries(ApplyMods(st, x, e.mods), e.mods)
    ensures var d := DirectItem(env, st, e, x);
            Carries(d, e.mods) && HashOf(env, d) == HashOf(env, ApplyMods(st, x, e.mods))
  {
    hide ApplyMods, ApproveItem, EditItem, Conflict, Content, AgreeOffBooks;
    ApproveBooks(env, st, e, x);
    EditBooks(env, st, e, x);
    BooksAgree(env, ApplyMods(st, x, e.mods), DirectItem(env, st, e, x));
  }

  /** A plain approval, coupled, then both again. */
  lemma ApprovedTwice(env: Env, st: Stamp, st': Stamp, e: Entry, x: Item, ss: Value)
    requires e.action.Approve? && e.mods == [] && !IsIocId(e.id)
    ensures var y := CoupleItem(env, st, DirectItem(env, st, e, x), ss);
            Erase(CoupleItem(env, st', DirectItem(env, st', e, y), ss)) == Erase(y)
  {
    hide Erase, ApproveItem, CoupleItem, Content, Coupled;
    var d := DirectItem(env, st, e, x);
    var y := CoupleItem(env, st, d, ss);
    var d' := DirectItem(env, st', e, y);
    ApproveErased(env, st, e, x);
    ApproveErased(env, st', e, y);
    PlainApproval(env, st, e, x);
    PlainApproval(env, st', e, y);
    CoupleItemFrame(env, st, d, ss);
    CoupleErased(env, st, d, ss);
    CoupleErased(env, st', d', ss);
  }

  lemma PlainApproval(env: Env, st: Stamp, e: Entry, x: Item)
    requires e.action.Approve? && e.mods == [] && !IsIocId(e.id)
    ensures var d := DirectItem(env, st, e, x);
            && d == ApproveItem(env, st, e, x) && ApplyMods(st, x, e.mods) == x
            && Get(d, Status) == State(Approved) && Coupled(d) == Coupled(x) && SourceOf(d) == SourceOf(x)
            && HashOf(env, d) == HashOf(env, x)
  {
    hide Truthy, ApproveItem, AgreeOffBooks, Content, SourceOf;
    ApproveBooks(env, st, e, x);
    BooksAgree(env, x, ApproveItem(env, st, e, x));
  }

  /** A rejection, coupled, then both again. */
  lemma RejectedTwice(env: Env, st: Stamp, st': Stamp, e: Entry, x: Item, ss: Value)
    requires e.action.Reject? && !IsIocId(e.id)
    ensures var y := CoupleItem(env, st, DirectItem(env, st, e, x), ss);
            Erase(CoupleItem(env, st', DirectItem(env, st', e, y), ss)) == Erase(y)
  {
    hide Erase, RejectItem, CoupleItem, Content, Coupled;
    var d := DirectItem(env, st, e, x);
    var y := CoupleItem(env, st, d, ss);
    var d' := DirectItem(env, st', e, y);
    RejectErased(st, e, x);
    RejectErased(st', e, y);
    PlainRejection(env, st, e, x);
    PlainRejection(env, st', e, y);
    CoupleItemFrame(env, st, d, ss);
    CoupleErased(env, st, d, ss);
    CoupleErased(env, st', d', ss);
  }

  lemma PlainRejection(env: Env, st: Stamp, e: Entry, x: Item)
    requires e.action.Reject? && !IsIocId(e.id)
    ensures var d := RejectItem(st, e, x);
            && Get(d, Status) == State(Rejected) && Coupled(d) == Coupled(x) && SourceOf(d) == SourceOf(x)
            && HashOf(env, d) == HashOf(env, x)
  {
    hide Truthy, RejectItem, AgreeOffBooks, Content, SourceOf;
    RejectBooks(st, e, x);
    BooksAgree(env, x, RejectItem(st, e, x));
  }

  /** A decision that modifies editable fields only. */
  ghost predicate ReplayableEntry(e: Entry) {
    OnlyEditable(e.mods) && DistinctFields(e.mods)
  }

  /** Acting on an item and coupling it, then doing both again. */
  lemma ActedTwice(env: Env, st: Stamp, st': Stamp, e: Entry, x: Item, ss: Value)
    requires ReplayableEntry(e) && !IsIocId(e.id)
    ensures var y := CoupleItem(env, st, DirectItem(env, st, e, x), ss);
            Erase(CoupleItem(env, st', DirectItem(env, st', e, y), ss)) == Erase(y)
  {
    hide Erase, ApproveItem, EditItem, RejectItem, CoupleItem, Coupled, Conflict, OnlyEditable, DistinctFields;
    var d := DirectItem(env, st, e, x);
    var y := CoupleItem(env, st, d, ss);
    if !Applies(e, x) {
      CoupleItemFrame(env, st, x, ss);
      ConflictRespects(x, y, e.mods);
      CoupleTwice(env, st, st', x, ss);
    } else if e.action.Reject? {
      RejectedTwice(env, st, st', e, x, ss);
    } else if e.mods == [] {
      ApprovedTwice(env, st, st', e, x, ss);
    } else {
      ModifiedTwice(env, st, st', e, x);
      UncoupledStays(env, st, d);
      var d' := DirectItem(env, st', e, d);
      CoupledRespects(d, d');
      UncoupledStays(env, st', d');
    }
  }

  // ---- What agreement up to stamps means ------------------------------------

  /** Items that agree up to stamps and notes have every other key alike, and the same fields
      recorded as modified from and to the same values. */
  lemma AgreementMeans(x: Item, y: Item, k: Key)
    requires Erase(x) == Erase(y)
    ensures k !in {ApprovedAt, ApprovedBy, RejectedAt, RejectedBy, ModifiedAt, ExaminerNotes, ExaminerModifications} ==>
              (k in x <==> k in y) && Get(x, k) == Get(y, k)
    ensures k in ModsOf(x) <==> k in ModsOf(y)
    ensures k in ModsOf(x) ==>
              ModsOf(x)[k].original == ModsOf(y)[k].original && ModsOf(x)[k].modified == ModsOf(y)[k].modified
  {
    hide Erase;
    if !Stamped(k) { EraseGet(x, y, k); }
    EraseModified(x, y);
    var a, b := EraseMods(Mods(ModsOf(x))).mods, EraseMods(Mods(ModsOf(y))).mods;
    assert k in a <==> k in ModsOf(x);
    assert k in b <==> k in ModsOf(y);
    if k in a { assert a[k] == b[k]; }
  }
}
