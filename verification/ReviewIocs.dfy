/** An IOC that a commit visits again: what a repeated decision and a repeated cascade make of
    it, exactly when the second visit leaves it as the first did, and when it comes to rest. */
module ReviewIocs {
  import opened Options
  import opened ReviewModel
  import opened ReviewEngine
  import opened ReviewBooks
  import opened ReviewCoupling
  import opened ReviewReplay

  // ---- The cascade, up to stamps --------------------------------------------

  lemma CascadeErased(env: Env, st: Stamp, x: Item, srcs: seq<Item>)
    ensures var a := if CascadeApproves(x, srcs) then Erase(x)[Status := State(Approved)]
                     else if CascadeRejects(x, srcs) then
                       Erase(x)[Status := State(Rejected)][RejectionReason := Text("All source findings rejected")]
                     else Erase(x);
            Erase(CascadeItem(env, st, x, srcs)) ==
            if CascadeRanks(env, x, srcs) then a[Confidence := Get(Best(env, Active(srcs)), Confidence)] else a
  {
    hide Erase, Active, Best, AllHold, CascadeApproves, CascadeRejects;
    if CascadeApproves(x, srcs) {
      var a := x[Status := State(Approved)];
      var b := a[ApprovedAt := Text(st.now)];
      var c := b[ApprovedBy := Text(st.examiner)];
      EraseSet(x, Status, State(Approved));
      EraseSet(a, ApprovedAt, Text(st.now));
      EraseSet(b, ApprovedBy, Text(st.examiner));
      EraseSet(c, ModifiedAt, Text(st.now));
    } else if CascadeRejects(x, srcs) {
      var a := x[Status := State(Rejected)];
      var b := a[RejectedAt := Text(st.now)];
      var c := b[RejectedBy := Text(st.examiner)];
      var d := c[RejectionReason := Text("All source findings rejected")];
      EraseSet(x, Status, State(Rejected));
      EraseSet(a, RejectedAt, Text(st.now));
      EraseSet(b, RejectedBy, Text(st.examiner));
      EraseSet(c, RejectionReason, Text("All source findings rejected"));
      EraseSet(d, ModifiedAt, Text(st.now));
    }
    if CascadeRanks(env, x, srcs) { EraseRank(env, st, x, srcs); }
  }

  lemma EraseRank(env: Env, st: Stamp, x: Item, srcs: seq<Item>)
    requires CascadeRanks(env, x, srcs)
    ensures forall y :: Erase(y[Confidence := Get(Best(env, Active(srcs)), Confidence)]) ==
                        Erase(y)[Confidence := Get(Best(env, Active(srcs)), Confidence)]
  {
    hide Erase;
    var v := Get(Best(env, Active(srcs)), Confidence);
    forall y: Item ensures Erase(y[Confidence := v]) == Erase(y)[Confidence := v] {
      EraseSet(y, Confidence, v);
    }
  }

  ghost predicate SameSources(a: seq<Item>, b: seq<Item>) {
    |a| == |b| && forall i :: 0 <= i < |a| ==> Erase(a[i]) == Erase(b[i])
  }

  lemma SourceRespects(env: Env, x: Item, y: Item)
    requires Erase(x) == Erase(y)
    ensures Get(x, Status) == Get(y, Status) && Get(x, Confidence) == Get(y, Confidence)
    ensures (Confidence in x <==> Confidence in y) && Rank(env, x) == Rank(env, y) && Rankable(x) == Rankable(y)
  {
    hide Erase;
    EraseGet(x, y, Status);
    EraseGet(x, y, Confidence);
  }

  lemma {:induction false} ActiveRespects(env: Env, a: seq<Item>, b: seq<Item>)
    requires SameSources(a, b)
    ensures SameSources(Active(a), Active(b))
  {
    hide Erase;
    if a != [] {
      ActiveRespects(env, a[..|a|-1], b[..|b|-1]);
      SourceRespects(env, a[|a|-1], b[|b|-1]);
    }
  }

  lemma {:induction false} BestRespects(env: Env, a: seq<Item>, b: seq<Item>)
    requires SameSources(a, b) && a != []
    ensures Erase(Best(env, a)) == Erase(Best(env, b))
  {
    hide Erase, Rank;
    var n := |a| - 1;
    SourceRespects(env, a[n], b[n]);
    if n > 0 {
      BestRespects(env, a[..n], b[..n]);
      SourceRespects(env, Best(env, a[..n]), Best(env, b[..n]));
    }
  }

  lemma HoldRespects(env: Env, a: seq<Item>, b: seq<Item>, s: Word)
    requires SameSources(a, b)
    ensures AllHold(a, s) == AllHold(b, s)
  {
    hide Erase;
    forall i | 0 <= i < |a| ensures Get(a[i], Status) == Get(b[i], Status) {
      SourceRespects(env, a[i], b[i]);
    }
  }

  /** Every choice the cascade makes depends on its inputs only up to their stamps. */
  lemma ChoicesRespect(env: Env, x: Item, y: Item, a: seq<Item>, b: seq<Item>)
    requires Erase(x) == Erase(y) && SameSources(a, b)
    ensures CascadeOpen(x, a) == CascadeOpen(y, b)
    ensures CascadeApproves(x, a) == CascadeApproves(y, b)
    ensures CascadeRejects(x, a) == CascadeRejects(y, b)
    ensures CascadeRanks(env, x, a) == CascadeRanks(env, y, b)
    ensures CascadeRaises(env, x, a) == CascadeRaises(env, y, b)
    ensures Active(a) != [] <==> Active(b) != []
    ensures Active(a) != [] ==> Get(Best(env, Active(a)), Confidence) == Get(Best(env, Active(b)), Confidence)
  {
    hide Erase, Active, Best, AllHold, Rank, Rankable;
    EraseGet(x, y, Status);
    EraseGet(x, y, Confidence);
    EraseGet(x, y, ManuallyReviewed);
    HoldRespects(env, a, b, Approved);
    HoldRespects(env, a, b, Rejected);
    ActiveRespects(env, a, b);
    forall i | 0 <= i < |Active(a)| ensures Rankable(Active(a)[i]) == Rankable(Active(b)[i]) {
      SourceRespects(env, Active(a)[i], Active(b)[i]);
    }
    if Active(a) != [] {
      BestRespects(env, Active(a), Active(b));
      SourceRespects(env, Best(env, Active(a)), Best(env, Active(b)));
    }
  }

  lemma CascadeRespects(env: Env, st: Stamp, st': Stamp, x: Item, y: Item, a: seq<Item>, b: seq<Item>)
    requires Erase(x) == Erase(y) && SameSources(a, b)
    ensures Erase(CascadeItem(env, st, x, a)) == Erase(CascadeItem(env, st', y, b))
  {
    hide Erase, CascadeItem, CascadeApproves, CascadeRejects;
    ChoicesRespect(env, x, y, a, b);
    CascadeErased(env, st, x, a);
    CascadeErased(env, st', y, b);
  }

  lemma CascadeTwice(env: Env, st: Stamp, st': Stamp, x: Item, a: seq<Item>)
    ensures var y := CascadeItem(env, st, x, a);
            && CascadeItem(env, st', y, a) == y
            && (!CascadeRaises(env, x, a) ==> !CascadeRaises(env, y, a))
  {
    hide Active, Best, AllHold, Rankable;
    if CascadeOpen(x, a) {
      CascadeItemStatus(env, st, x, a);
      CascadeSettles(env, st, x, a);
    } else {
      CascadeItemClosed(env, st, x, a);
      CascadeItemClosed(env, st', x, a);
    }
  }

  /** An IOC the cascade has just visited gives it nothing more to do. */
  lemma CascadeSettles(env: Env, st: Stamp, x: Item, a: seq<Item>)
    requires CascadeOpen(x, a)
    ensures var y := CascadeItem(env, st, x, a);
            !CascadeApproves(y, a) && !CascadeRejects(y, a) && !CascadeRanks(env, y, a)
  {
    hide CascadeItem, Active, Best, AllHold;
    CascadeItemStatus(env, st, x, a);
  }

  // ---- One IOC, commit after commit -----------------------------------------

  function Decided(env: Env, st: Stamp, o: Option<Entry>, x: Item): Item {
    if o.Some? then DirectItem(env, st, o.value, x) else x
  }

  /** What a commit makes of an IOC, given the decision that names it and its sources. */
  function Next(env: Env, st: Stamp, o: Option<Entry>, x: Item, a: seq<Item>): Item {
    CascadeItem(env, st, Decided(env, st, o, x), a)
  }

  function Nth(env: Env, st: Stamp, o: Option<Entry>, x: Item, a: seq<Item>, n: nat): Item {
    if n == 0 then x else Next(env, st, o, Nth(env, st, o, x, a, n - 1), a)
  }

  /** The item without its stamps, its notes and its stored hash. */
  function Rough(x: Item): Item {
    Erase(x) - {ContentHash}
  }

  ghost predicate ReplayableOption(o: Option<Entry>) {
    o.Some? ==> ReplayableEntry(o.value) && IsIocId(o.value.id)
  }

  lemma NextRespects(env: Env, st: Stamp, st': Stamp, o: Option<Entry>, x: Item, x': Item, a: seq<Item>, b: seq<Item>)
    requires Erase(x) == Erase(x') && SameSources(a, b) && ReplayableOption(o)
    ensures Erase(Next(env, st, o, x, a)) == Erase(Next(env, st', o, x', b))
    ensures CascadeRaises(env, Decided(env, st, o, x), a) == CascadeRaises(env, Decided(env, st', o, x'), b)
  {
    hide Erase, DirectItem, CascadeItem, CascadeRaises;
    if o.Some? { DirectRespects(env, st, st', o.value, x, x'); }
    CascadeRespects(env, st, st', Decided(env, st, o, x), Decided(env, st', o, x'), a, b);
    ChoicesRespect(env, Decided(env, st, o, x), Decided(env, st', o, x'), a, b);
  }

  // ---- What the conditions speak of -----------------------------------------

  predicate Changing(ms: seq<FieldMod>) {
    exists i :: 0 <= i < |ms| && ms[i].original != ms[i].modified
  }

  /** A decision that the first commit skips because of the confidence, and that the cascade
      of the same commit gives the confidence it expects. */
  predicate Unblocked(env: Env, e: Entry, x: Item, a: seq<Item>) {
    && (e.action.Approve? || e.action.Edit?)
    && Conflict(x, e.mods) && CascadeRanks(env, x, a)
    && !Conflict(x[Confidence := Get(Best(env, Active(a)), Confidence)], e.mods)
  }

  /** The value the modifications give a field, null when they do not name it. */
  function NewValue(ms: seq<FieldMod>, k: Key): Value {
    if ms == [] then Null
    else if ms[|ms|-1].field == k then ms[|ms|-1].modified
    else NewValue(ms[..|ms|-1], k)
  }

  /** But for its confidence, the IOC already carries every modification and its record, and the
      stored hash is that of its content with the new confidence. */
  ghost predicate MadeBefore(env: Env, e: Entry, x: Item) {
    var y := x[Confidence := NewValue(e.mods, Confidence)];
    Carries(y, e.mods) && Get(x, ContentHash) == Hashing(env, y)
  }

  /** Whether the second commit leaves the IOC exactly as the first did, read off the IOC, the
      decision and the sources before either.
      An approval hashes before it sets the hashed flag, so a decision that changes nothing is
      made again and hashes otherwise unless the flag was set. An edit hashes before the cascade
      corrects the confidence. A decision unblocked by the cascade is made by the second commit
      only, which shows unless the IOC carries it already, all but the confidence. */
  ghost predicate Repeats(env: Env, e: Entry, x: Item, a: seq<Item>) {
    match e.action
    case Approve =>
      if Conflict(x, e.mods) then !Unblocked(env, e, x, a)
      else Changing(e.mods) || Get(x, ManuallyReviewed) == Flag(true)
    case Edit =>
      if e.mods == [] then true
      else if Conflict(x, e.mods) then
        Unblocked(env, e, x, a) ==> MadeBefore(env, e, x)
      else Changing(e.mods) || Names(e.mods, Confidence) || !CascadeRanks(env, x, a)
    case _ => true
  }

  ghost predicate Injective(env: Env) {
    forall a, b :: env.digest(a) == env.digest(b) ==> a == b
  }

  // ---- Modifications and other updates --------------------------------------

  lemma {:induction false} ApplyModsPast(st: Stamp, x: Item, ms: seq<FieldMod>, k: Key, v: Value)
    requires !Editable(k) && k != ExaminerModifications
    ensures ApplyMods(st, x[k := v], ms) == ApplyMods(st, x, ms)[k := v]
  {
    hide ApplyMod;
    if ms != [] {
      var n := |ms| - 1;
      ApplyModsPast(st, x, ms[..n], k, v);
      ApplyModPast(st, ApplyMods(st, x, ms[..n]), ms[n], k, v);
    }
  }

  lemma ApplyModPast(st: Stamp, x: Item, m: FieldMod, k: Key, v: Value)
    requires k != ExaminerModifications
    ensures ApplyMod(st, x[k := v], m) ==
            if Editable(m.field) && m.field == k then ApplyMod(st, x, m) else ApplyMod(st, x, m)[k := v]
  {
  }

  lemma {:induction false} ApplyModsOver(st: Stamp, x: Item, ms: seq<FieldMod>, k: Key, v: Value)
    requires Editable(k)
    ensures ApplyMods(st, x[k := v], ms) ==
            if Names(ms, k) then ApplyMods(st, x, ms) else ApplyMods(st, x, ms)[k := v]
    ensures Names(ms, k) ==> k in ApplyMods(st, x, ms)
  {
    hide ApplyMod, Names;
    NamesNothing(k);
    if ms != [] {
      var n := |ms| - 1;
      ApplyModsOver(st, x, ms[..n], k, v);
      ApplyModPast(st, ApplyMods(st, x, ms[..n]), ms[n], k, v);
      ApplyModHas(st, ApplyMods(st, x, ms[..n]), ms[n], k);
      NamesLast(ms, k);
    }
  }

  lemma ApplyModHas(st: Stamp, x: Item, m: FieldMod, k: Key)
    requires Editable(k)
    ensures k in x || m.field == k ==> k in ApplyMod(st, x, m)
  {
  }

  /** An item that has every modified value conflicts exactly when some modification changes
      something. */
  lemma CarriedConflict(y: Item, ms: seq<FieldMod>)
    requires forall i :: 0 <= i < |ms| ==> Get(y, ms[i].field) == ms[i].modified
    ensures Conflict(y, ms) <==> Changing(ms)
  {
    if i :| 0 <= i < |ms| && Get(y, ms[i].field) != ms[i].original { assert ms[i].original != ms[i].modified; }
    if i :| 0 <= i < |ms| && ms[i].original != ms[i].modified { assert Get(y, ms[i].field) != ms[i].original; }
  }

  /** A decision that is not made leaves the IOC to the cascade, which is done with it. */
  lemma UnmadeRests(env: Env, st: Stamp, o: Option<Entry>, x: Item, a: seq<Item>)
    requires var y := Next(env, st, o, x, a); o.Some? ==> !Applies(o.value, y)
    ensures var y := Next(env, st, o, x, a); Next(env, st, o, y, a) == y
  {
    hide CascadeItem, CascadeRaises, Conflict, ApproveItem, EditItem, RejectItem;
    CascadeTwice(env, st, st, Decided(env, st, o, x), a);
  }

  // ---- Rejected again -------------------------------------------------------

  lemma RejectedAgain(env: Env, st: Stamp, e: Entry, x: Item, a: seq<Item>)
    requires e.action.Reject? && IsIocId(e.id)
    ensures var y := Next(env, st, Some(e), x, a);
            Erase(Next(env, st, Some(e), y, a)) == Erase(y)
    ensures !CascadeOpen(DirectItem(env, st, e, x), a)
  {
    hide Erase, RejectItem;
    var d := RejectItem(st, e, x);
    RejectBooks(st, e, x);
    RejectBooks(st, e, d);
    CascadeItemClosed(env, st, d, a);
    CascadeItemClosed(env, st, RejectItem(st, e, d), a);
    RejectErased(st, e, x);
    RejectErased(st, e, d);
  }

  // ---- Approved again -------------------------------------------------------

  /** An approval shields the IOC; its hash is that of the modified content without the flag. */
  lemma ApprovalShields(env: Env, st: Stamp, e: Entry, x: Item, a: seq<Item>)
    requires e.action.Approve? && IsIocId(e.id)
    ensures var y := ApproveItem(env, st, e, x);
            var m := ApplyMods(st, x, e.mods);
            && Get(y, ManuallyReviewed) == Flag(true) && !CascadeOpen(y, a) && Get(y, Status) == State(Approved)
            && Get(y, ContentHash) == Hashing(env, m)
            && Content(y) == Content(m)[ManuallyReviewed := Flag(true)]
  {
    hide ApplyMods, AddNote, Content, AgreeOffBooks, HashOf;
    ApproveBooks(env, st, e, x);
    ApprovalFlag(env, st, e, x);
    ShieldedContent(ApplyMods(st, x, e.mods), ApproveItem(env, st, e, x));
  }

  lemma ApprovalFlag(env: Env, st: Stamp, e: Entry, x: Item)
    requires e.action.Approve? && IsIocId(e.id)
    ensures Get(ApproveItem(env, st, e, x), ManuallyReviewed) == Flag(true)
  {
    hide ApplyMods, AddNote, HashOf;
  }

  lemma ShieldedContent(m: Item, y: Item)
    requires AgreeOffBooks(m, y, true) && Get(y, ManuallyReviewed) == Flag(true)
    ensures Content(y) == Content(m)[ManuallyReviewed := Flag(true)]
  {
    assert forall k :: Hashed(k) ==> !Book(k);
    assert ManuallyReviewed in y;
  }

  /** The approved item carries its modifications, if it has any. */
  lemma ApprovalCarries(env: Env, st: Stamp, e: Entry, x: Item)
    requires OnlyEditable(e.mods) && DistinctFields(e.mods)
    ensures var y := ApproveItem(env, st, e, x);
            && (e.mods != [] ==> Carries(y, e.mods))
            && (forall i :: 0 <= i < |e.mods| ==> Get(y, e.mods[i].field) == e.mods[i].modified)
  {
    hide ApplyMods, ApproveItem, HashOf;
    if e.mods != [] {
      ModsCarried(st, x, e.mods);
      ApproveBooks(env, st, e, x);
    }
  }

  lemma ReappliedAll(st: Stamp, y: Item, ms: seq<FieldMod>)
    requires OnlyEditable(ms) && (ms != [] ==> Carries(y, ms))
    ensures Erase(ApplyMods(st, y, ms)) == Erase(y)
  {
    hide Erase, Carries;
    if ms != [] { Reapplied(st, y, ms); }
  }

  /** Approving once more changes nothing when the modifications are conflicts by then, and
      otherwise nothing but the stored hash, which then covers the flag. */
  lemma ApprovedAgain(env: Env, st: Stamp, e: Entry, x: Item, a: seq<Item>)
    requires e.action.Approve? && IsIocId(e.id) && ReplayableEntry(e) && !Conflict(x, e.mods)
    ensures var y := Next(env, st, Some(e), x, a);
            && y == ApproveItem(env, st, e, x)
            && (Changing(e.mods) ==> Next(env, st, Some(e), y, a) == y)
            && (!Changing(e.mods) ==>
                  !Conflict(y, e.mods) &&
                  Erase(Next(env, st, Some(e), y, a)) == Erase(y)[ContentHash := Hashing(env, y)])
  {
    hide Erase, ApproveItem, ApplyMods, Conflict, Content, Carries, OnlyEditable, DistinctFields, Changing, CascadeItem, CascadeOpen;
    var y := ApproveItem(env, st, e, x);
    ApprovalShields(env, st, e, x, a);
    CascadeItemClosed(env, st, y, a);
    ApprovalCarries(env, st, e, x);
    CarriedConflict(y, e.mods);
    if !Conflict(y, e.mods) {
      var z := ApproveItem(env, st, e, y);
      ApprovalShields(env, st, e, y, a);
      CascadeItemClosed(env, st, z, a);
      ReappliedAll(st, y, e.mods);
      ApproveErased(env, st, e, y);
      EraseContent(env, ApplyMods(st, y, e.mods), y);
      ErasedAt(y, Status);
      ErasedAt(y, ManuallyReviewed);
    }
  }

  lemma ErasedAt(x: Item, k: Key)
    requires !Stamped(k) && k != ExaminerModifications
    ensures k in Erase(x) <==> k in x
    ensures Get(Erase(x), k) == Get(x, k)
  {
  }

  /** So the second approval stores the same hash exactly when the flag was already set. */
  lemma ApprovalRepeats(env: Env, st: Stamp, e: Entry, x: Item, a: seq<Item>)
    requires e.action.Approve? && IsIocId(e.id) && ReplayableEntry(e) && !Conflict(x, e.mods)
    ensures var y := Next(env, st, Some(e), x, a);
            var z := Next(env, st, Some(e), y, a);
            && Rough(z) == Rough(y)
            && (Repeats(env, e, x, a) ==> Erase(z) == Erase(y))
            && (Injective(env) && Erase(z) == Erase(y) ==> Repeats(env, e, x, a))
  {
    hide Erase, ApproveItem, ApplyMods, Conflict, Content, OnlyEditable, DistinctFields, Changing, Next;
    ApprovedAgain(env, st, e, x, a);
    ApprovalShields(env, st, e, x, a);
    var y, m := ApproveItem(env, st, e, x), ApplyMods(st, x, e.mods);
    ErasedAt(y, ContentHash);
    ApplyModsKeeps(st, x, e.mods, ManuallyReviewed);
    FlaggedContent(m);
  }

  lemma FlaggedContent(m: Item)
    ensures Content(m)[ManuallyReviewed := Flag(true)] == Content(m) <==> Get(m, ManuallyReviewed) == Flag(true)
  {
    assert ManuallyReviewed in Content(m) <==> ManuallyReviewed in m;
    if Content(m)[ManuallyReviewed := Flag(true)] == Content(m) { assert Content(m)[ManuallyReviewed] == Flag(true); }
  }

  // ---- The cascade around an edit -------------------------------------------

  /** What the cascade decides depends on the status, the confidence and the flag alone. */
  lemma ChoicesOf(env: Env, x: Item, y: Item, a: seq<Item>)
    requires Get(x, Status) == Get(y, Status) && Get(x, Confidence) == Get(y, Confidence)
    requires Get(x, ManuallyReviewed) == Get(y, ManuallyReviewed)
    ensures CascadeOpen(x, a) == CascadeOpen(y, a) && CascadeApproves(x, a) == CascadeApproves(y, a)
    ensures CascadeRejects(x, a) == CascadeRejects(y, a) && CascadeRanks(env, x, a) == CascadeRanks(env, y, a)
    ensures CascadeRaises(env, x, a) == CascadeRaises(env, y, a)
  {
    hide AllHold, Active, Best, Rankable;
  }

  /** Nothing but status, stamps, reason and confidence changes. */
  lemma CascadeLeaves(env: Env, st: Stamp, x: Item, a: seq<Item>, k: Key)
    requires !Stamped(k) && k != Status && k != RejectionReason
    requires k == Confidence ==> !CascadeRanks(env, x, a)
    ensures var y := CascadeItem(env, st, x, a); (k in y <==> k in x) && Get(y, k) == Get(x, k)
  {
    hide AllHold, Active, Best;
  }

  lemma CascadedConfidence(env: Env, st: Stamp, x: Item, a: seq<Item>)
    requires CascadeRanks(env, x, a)
    ensures var y := CascadeItem(env, st, x, a);
            Confidence in y && y[Confidence] == Get(Best(env, Active(a)), Confidence)
  {
    hide AllHold, Active, Best;
  }

  /** The content stays exactly when the confidence does. */
  lemma CascadedContent(env: Env, st: Stamp, x: Item, a: seq<Item>)
    ensures var y := CascadeItem(env, st, x, a);
            Content(y) == Content(x) <==> !CascadeRanks(env, x, a)
  {
    hide CascadeItem, CascadeRanks;
    var y := CascadeItem(env, st, x, a);
    forall k | Hashed(k) && (k == Confidence ==> !CascadeRanks(env, x, a))
      ensures (k in y <==> k in x) && Get(y, k) == Get(x, k)
    {
      CascadeLeaves(env, st, x, a, k);
    }
    if CascadeRanks(env, x, a) {
      RanksApart(env, x, a);
      CascadedConfidence(env, st, x, a);
      ContentAt(x, Confidence);
      ContentAt(y, Confidence);
    } else {
      assert Content(y) == Content(x);
    }
  }

  lemma ContentAt(x: Item, k: Key)
    requires Hashed(k)
    ensures Get(Content(x), k) == Get(x, k) && (k in Content(x) <==> k in x)
  {
  }

  lemma RanksApart(env: Env, x: Item, a: seq<Item>)
    requires CascadeRanks(env, x, a)
    ensures Active(a) != [] && CascadeOpen(x, a)
    ensures Get(Best(env, Active(a)), Confidence) != Get(x, Confidence)
  {
  }

  /** An edit leaves what the cascade looks at, but for a confidence it names. */
  lemma EditLeaves(env: Env, st: Stamp, e: Entry, x: Item, a: seq<Item>)
    ensures var d := EditItem(env, st, e, x);
            && Get(d, Status) == Get(x, Status) && (Status in d <==> Status in x)
            && Get(d, RejectionReason) == Get(x, RejectionReason) && (RejectionReason in d <==> RejectionReason in x)
            && Get(d, ManuallyReviewed) == Get(x, ManuallyReviewed) && CascadeOpen(d, a) == CascadeOpen(x, a)
            && (!Names(e.mods, Confidence) ==> Get(d, Confidence) == Get(x, Confidence))
            && (Names(e.mods, Confidence) ==> Confidence in d)
  {
    hide ApplyMods, HashOf, Names;
    EditKeeps(st, x, e.mods, Status);
    EditKeeps(st, x, e.mods, RejectionReason);
    EditKeeps(st, x, e.mods, ManuallyReviewed);
    EditKeeps(st, x, e.mods, Confidence);
    ApplyModsOver(st, x, e.mods, Confidence, Null);
  }

  lemma {:induction false} EditKeeps(st: Stamp, x: Item, ms: seq<FieldMod>, k: Key)
    requires k != ExaminerModifications
    ensures !Names(ms, k) || !Editable(k) ==>
              Get(ApplyMods(st, x, ms), k) == Get(x, k) && (k in ApplyMods(st, x, ms) <==> k in x)
  {
    hide Names, ModsOf;
    if ms != [] {
      EditKeeps(st, x, ms[..|ms|-1], k);
      NamesLast(ms, k);
    }
  }

  /** The status part of what the cascade makes of an item, up to its stamps. */
  function Judged(x: Item, a: seq<Item>): Item {
    if CascadeApproves(x, a) then x[Status := State(Approved)]
    else if CascadeRejects(x, a) then
      x[Status := State(Rejected)][RejectionReason := Text("All source findings rejected")]
    else x
  }

  function Ranked(env: Env, x: Item, a: seq<Item>): Item {
    if CascadeRanks(env, x, a) then x[Confidence := Get(Best(env, Active(a)), Confidence)] else x
  }

  lemma JudgedErased(env: Env, st: Stamp, x: Item, a: seq<Item>)
    ensures Erase(CascadeItem(env, st, x, a)) == Erase(Ranked(env, Judged(x, a), a))
    ensures CascadeRanks(env, Judged(x, a), a) == CascadeRanks(env, x, a)
  {
    hide Erase, CascadeItem, Active, Best, AllHold;
    CascadeErased(env, st, x, a);
    var j := Judged(x, a);
    EraseSet(x, Status, State(Approved));
    EraseSet(x, Status, State(Rejected));
    EraseSet(x[Status := State(Rejected)], RejectionReason, Text("All source findings rejected"));
    if CascadeRanks(env, x, a) { EraseRank(env, st, x, a); }
  }

  lemma JudgedTwice(x: Item, a: seq<Item>)
    ensures Judged(Judged(x, a), a) == Judged(x, a)
  {
    hide AllHold;
    if CascadeOpen(x, a) {
      assert !(AllHold(a, Approved) && AllHold(a, Rejected)) by { NotBoth(a); }
    }
  }

  lemma NotBoth(a: seq<Item>)
    requires a != []
    ensures !(AllHold(a, Approved) && AllHold(a, Rejected))
  {
    assert Get(a[0], Status) == Get(a[0], Status);
  }

  /** Judging first makes no difference to the cascade. */
  lemma CascadeOfJudged(env: Env, st: Stamp, x: Item, a: seq<Item>)
    ensures Erase(CascadeItem(env, st, Judged(x, a), a)) == Erase(CascadeItem(env, st, x, a))
  {
    hide Erase, CascadeItem, Judged, Ranked;
    JudgedTwice(x, a);
    JudgedErased(env, st, x, a);
    JudgedErased(env, st, Judged(x, a), a);
  }

  /** Judging and editing commute. */
  lemma EditOfJudged(env: Env, st: Stamp, e: Entry, x: Item, a: seq<Item>)
    ensures EditItem(env, st, e, Judged(x, a)) == Judged(EditItem(env, st, e, x), a)
  {
    hide ApplyMods, HashOf, Content, AllHold, Names;
    var m := ApplyMods(st, x, e.mods);
    var reason := Text("All source findings rejected");
    EditLeaves(env, st, e, x, a);
    ApplyModsPast(st, x, e.mods, Status, State(Approved));
    ApplyModsPast(st, x, e.mods, Status, State(Rejected));
    ApplyModsPast(st, x[Status := State(Rejected)], e.mods, RejectionReason, reason);
    UnhashedUpdate(env, m, Status, State(Approved));
    UnhashedUpdate(env, m, Status, State(Rejected));
    UnhashedUpdate(env, m[Status := State(Rejected)], RejectionReason, reason);
  }

  lemma EditRespects(env: Env, st: Stamp, e: Entry, x: Item, x': Item)
    requires Erase(x) == Erase(x') && OnlyEditable(e.mods)
    ensures Erase(EditItem(env, st, e, x)) == Erase(EditItem(env, st, e, x'))
  {
    hide Erase, EditItem, ApplyMods, Content;
    ApplyModsRespects(st, st, x, x', e.mods);
    EraseContent(env, ApplyMods(st, x, e.mods), ApplyMods(st, x', e.mods));
    EditErased(env, st, e, x);
    EditErased(env, st, e, x');
  }

  /** An edit that names the confidence, between two cascades: the first makes no difference. */
  lemma EditThroughCascade(env: Env, st: Stamp, e: Entry, x: Item, a: seq<Item>)
    requires OnlyEditable(e.mods) && Names(e.mods, Confidence)
    ensures Erase(CascadeItem(env, st, EditItem(env, st, e, CascadeItem(env, st, x, a)), a)) ==
            Erase(CascadeItem(env, st, EditItem(env, st, e, x), a))
  {
    hide Erase, CascadeItem, Judged, ApplyMods, Content, Names, CascadeRanks, OnlyEditable;
    var w, j := CascadeItem(env, st, x, a), Judged(x, a);
    JudgedErased(env, st, x, a);
    EditRespects(env, st, e, w, Ranked(env, j, a));
    CascadeRespects(env, st, st, EditItem(env, st, e, w), EditItem(env, st, e, Ranked(env, j, a)), a, a);
    ApplyModsOver(st, j, e.mods, Confidence, if Active(a) != [] then Get(Best(env, Active(a)), Confidence) else Null);
    if CascadeRanks(env, j, a) { RanksApart(env, j, a); }
    assert EditItem(env, st, e, Ranked(env, j, a)) == EditItem(env, st, e, j);
    EditOfJudged(env, st, e, x, a);
    CascadeOfJudged(env, st, EditItem(env, st, e, x), a);
  }

  // ---- Edited again ---------------------------------------------------------

  lemma EditCarries(env: Env, st: Stamp, e: Entry, x: Item)
    requires ReplayableEntry(e) && e.mods != []
    ensures var d := EditItem(env, st, e, x);
            && Carries(d, e.mods) && Content(d) == Content(ApplyMods(st, x, e.mods))
            && Get(d, ContentHash) == Hashing(env, d)
  {
    hide ApplyMods, EditItem, Content, AgreeOffBooks;
    ModsCarried(st, x, e.mods);
    EditBooks(env, st, e, x);
    BooksAgree(env, ApplyMods(st, x, e.mods), EditItem(env, st, e, x));
  }

  /** Editing an item that carries the modifications changes its stored hash at most. */
  lemma CarriedEdit(env: Env, st: Stamp, e: Entry, d: Item)
    requires OnlyEditable(e.mods) && Carries(d, e.mods)
    ensures Erase(EditItem(env, st, e, d)) == Erase(d)[ContentHash := Hashing(env, d)]
  {
    hide Erase, EditItem, ApplyMods, Content, Carries;
    Reapplied(st, d, e.mods);
    EditErased(env, st, e, d);
    EraseContent(env, ApplyMods(st, d, e.mods), d);
  }

  lemma EditedTwice(env: Env, st: Stamp, e: Entry, x: Item)
    requires ReplayableEntry(e) && e.mods != []
    ensures var d := EditItem(env, st, e, x);
            Erase(EditItem(env, st, e, d)) == Erase(d)
  {
    hide Erase, EditItem, Content, Carries, OnlyEditable, DistinctFields;
    var d := EditItem(env, st, e, x);
    EditCarries(env, st, e, x);
    CarriedEdit(env, st, e, d);
    ErasedAt(d, ContentHash);
  }

  /** An edit that names the confidence ends alike when repeated. */
  lemma ConfidenceEditedAgain(env: Env, st: Stamp, e: Entry, x: Item, a: seq<Item>)
    requires e.action.Edit? && ReplayableEntry(e) && !Conflict(x, e.mods) && Names(e.mods, Confidence)
    ensures var y := Next(env, st, Some(e), x, a);
            Erase(Next(env, st, Some(e), y, a)) == Erase(y)
  {
    hide Erase, EditItem, CascadeItem, Conflict, OnlyEditable, DistinctFields;
    NamesSome(e.mods, Confidence);
    var d := EditItem(env, st, e, x);
    var y := Next(env, st, Some(e), x, a);
    if Conflict(y, e.mods) {
      UnmadeRests(env, st, Some(e), x, a);
    } else {
      EditThroughCascade(env, st, e, d, a);
      EditedTwice(env, st, e, x);
      CascadeRespects(env, st, st, EditItem(env, st, e, d), d, a, a);
    }
  }

  /** Any other edit changes nothing when the modifications are conflicts by then, and
      otherwise nothing but the stored hash, which then covers the cascaded confidence. */
  lemma EditedAgain(env: Env, st: Stamp, e: Entry, x: Item, a: seq<Item>)
    requires e.action.Edit? && ReplayableEntry(e) && e.mods != []
    requires !Conflict(x, e.mods) && !Names(e.mods, Confidence)
    ensures var y := Next(env, st, Some(e), x, a);
            && y == CascadeItem(env, st, EditItem(env, st, e, x), a)
            && (Changing(e.mods) ==> Next(env, st, Some(e), y, a) == y)
            && (!Changing(e.mods) ==>
                  !Conflict(y, e.mods) &&
                  Erase(Next(env, st, Some(e), y, a)) == Erase(y)[ContentHash := Hashing(env, y)])
  {
    hide Erase, EditItem, CascadeItem, Conflict, OnlyEditable, DistinctFields, Carries, Changing, Names, Content;
    var d := EditItem(env, st, e, x);
    var y := CascadeItem(env, st, d, a);
    EditCarries(env, st, e, x);
    CascadeCarries(env, st, d, e.mods, a);
    CarriedConflict(y, e.mods);
    if Conflict(y, e.mods) {
      UnmadeRests(env, st, Some(e), x, a);
    } else {
      CarriedEdit(env, st, e, y);
      var f := EditItem(env, st, e, y);
      EditLeaves(env, st, e, y, a);
      CascadeTwice(env, st, st, d, a);
      AtRest(env, st, y, f, a);
    }
  }

  lemma CascadeCarries(env: Env, st: Stamp, d: Item, ms: seq<FieldMod>, a: seq<Item>)
    requires Carries(d, ms) && OnlyEditable(ms) && !Names(ms, Confidence)
    ensures var y := CascadeItem(env, st, d, a);
            Carries(y, ms) && forall i :: 0 <= i < |ms| ==> Get(y, ms[i].field) == ms[i].modified
  {
    hide CascadeItem, CascadeRanks;
    var y := CascadeItem(env, st, d, a);
    forall k | (Editable(k) && k != Confidence) || k == ExaminerModifications
      ensures (k in y <==> k in d) && Get(y, k) == Get(d, k)
    {
      CascadeLeaves(env, st, d, a, k);
    }
  }

  /** Where the cascade leaves one item alone, it leaves alone what looks the same to it. */
  lemma AtRest(env: Env, st: Stamp, y: Item, f: Item, a: seq<Item>)
    requires CascadeItem(env, st, y, a) == y
    requires Get(f, Status) == Get(y, Status) && Get(f, Confidence) == Get(y, Confidence)
    requires Get(f, ManuallyReviewed) == Get(y, ManuallyReviewed)
    ensures CascadeItem(env, st, f, a) == f
  {
    hide AllHold, Active, Best;
    ChoicesOf(env, y, f, a);
    if CascadeOpen(y, a) { CascadeSettles(env, st, y, a); } else { CascadeItemClosed(env, st, f, a); }
  }

  lemma EditRepeats(env: Env, st: Stamp, e: Entry, x: Item, a: seq<Item>)
    requires e.action.Edit? && ReplayableEntry(e) && e.mods != [] && !Conflict(x, e.mods)
    ensures var y := Next(env, st, Some(e), x, a);
            var z := Next(env, st, Some(e), y, a);
            && Rough(z) == Rough(y)
            && (Repeats(env, e, x, a) ==> Erase(z) == Erase(y))
            && (Injective(env) && Erase(z) == Erase(y) ==> Repeats(env, e, x, a))
  {
    hide Erase, EditItem, CascadeItem, Conflict, OnlyEditable, DistinctFields, Changing, Names, Content, Next, Carries, CascadeRanks;
    if Names(e.mods, Confidence) {
      ConfidenceEditedAgain(env, st, e, x, a);
    } else {
      var d := EditItem(env, st, e, x);
      EditedAgain(env, st, e, x, a);
      EditCarries(env, st, e, x);
      CascadedContent(env, st, d, a);
      CascadeLeaves(env, st, d, a, ContentHash);
      EditLeaves(env, st, e, x, a);
      ChoicesOf(env, d, x, a);
      ErasedAt(CascadeItem(env, st, d, a), ContentHash);
    }
  }

  // ---- A decision the cascade unblocks --------------------------------------

  /** After the first commit a skipped decision still conflicts, unless the cascade unblocks it. */
  lemma BlockedOnce(env: Env, st: Stamp, e: Entry, x: Item, a: seq<Item>)
    requires e.action.Approve? || e.action.Edit?
    requires OnlyEditable(e.mods) && Conflict(x, e.mods)
    ensures var y := Next(env, st, Some(e), x, a);
            && y == CascadeItem(env, st, x, a)
            && (Conflict(y, e.mods) <==> !Unblocked(env, e, x, a))
  {
    hide CascadeItem, Conflict, CascadeRanks, OnlyEditable;
    var y := CascadeItem(env, st, x, a);
    if CascadeRanks(env, x, a) { RanksApart(env, x, a); }
    var z := Ranked(env, x, a);
    forall k | Editable(k) ensures Get(y, k) == Get(z, k) {
      if CascadeRanks(env, x, a) { CascadedConfidence(env, st, x, a); }
      if k != Confidence || !CascadeRanks(env, x, a) { CascadeLeaves(env, st, x, a, k); }
    }
    ConflictRespects(y, z, e.mods);
  }

  lemma UnblockedNames(env: Env, e: Entry, x: Item, a: seq<Item>)
    requires Unblocked(env, e, x, a)
    ensures Names(e.mods, Confidence)
  {
    hide CascadeRanks;
    RanksApart(env, x, a);
    var i :| 0 <= i < |e.mods| && Get(x, e.mods[i].field) != e.mods[i].original;
    assert Get(x[Confidence := Get(Best(env, Active(a)), Confidence)], e.mods[i].field) == e.mods[i].original;
    assert e.mods[i].field == Confidence;
  }

  /** An approval made by the second commit only shows in the flag. */
  lemma UnblockedApproval(env: Env, st: Stamp, e: Entry, x: Item, a: seq<Item>)
    requires e.action.Approve? && IsIocId(e.id) && ReplayableEntry(e) && Unblocked(env, e, x, a)
    ensures var y := Next(env, st, Some(e), x, a);
            var z := Next(env, st, Some(e), y, a);
            && Get(z, Status) == State(Approved)
            && Get(z, ManuallyReviewed) == Flag(true) && Get(y, ManuallyReviewed) != Flag(true)
            && Erase(z) != Erase(y) && Rough(z) != Rough(y)
  {
    hide Erase, ApproveItem, CascadeItem, Conflict, OnlyEditable, DistinctFields, CascadeRanks;
    var y := CascadeItem(env, st, x, a);
    BlockedOnce(env, st, e, x, a);
    ApprovalShields(env, st, e, y, a);
    CascadeItemClosed(env, st, ApproveItem(env, st, e, y), a);
    CascadeLeaves(env, st, x, a, ManuallyReviewed);
    RanksApart(env, x, a);
    ErasedAt(y, ManuallyReviewed);
    ErasedAt(ApproveItem(env, st, e, y), ManuallyReviewed);
    assert Get(Rough(y), ManuallyReviewed) == Get(Erase(y), ManuallyReviewed);
  }

  lemma Overlaid(p: Item, q: Item, status: bool, reason: bool, s: Value, r: Value, c: Value)
    requires forall k :: k == Status || k == RejectionReason ==> (k in p <==> k in q) && Get(p, k) == Get(q, k)
    ensures var p' := if status then p[Status := s] else p;
            var q' := if status then q[Status := s] else q;
            var p'' := if reason then p'[RejectionReason := r] else p';
            var q'' := if reason then q'[RejectionReason := r] else q';
            p''[Confidence := c] == q''[Confidence := c] <==> p - {Confidence} == q - {Confidence}
  {
    var p' := if status then p[Status := s] else p;
    var q' := if status then q[Status := s] else q;
    var p'' := (if reason then p'[RejectionReason := r] else p')[Confidence := c];
    var q'' := (if reason then q'[RejectionReason := r] else q')[Confidence := c];
    if p'' == q'' {
      forall k | k != Confidence ensures (k in p <==> k in q) && Get(p, k) == Get(q, k) {
        if k != Status && k != RejectionReason {
          assert k in p'' <==> k in p;
          assert k in q'' <==> k in q;
          assert Get(p'', k) == Get(p, k) && Get(q'', k) == Get(q, k);
        }
      }
      assert p - {Confidence} == q - {Confidence};
    }
    if p - {Confidence} == q - {Confidence} {
      forall k | k != Confidence ensures (k in p <==> k in q) && Get(p, k) == Get(q, k) {
        assert k in p - {Confidence} <==> k in p;
        assert k in q - {Confidence} <==> k in q;
        if k in p { assert (p - {Confidence})[k] == (q - {Confidence})[k]; }
      }
      assert p'' == q'';
    }
  }

  /** The cascaded item, where the confidence is in play: judged and given the best confidence. */
  lemma RankedErased(env: Env, st: Stamp, x: Item, a: seq<Item>)
    requires CascadeOpen(x, a) && Active(a) != [] && (CascadeRanks(env, x, a) || Confidence in x)
    ensures var b := Get(Best(env, Active(a)), Confidence);
            var p := if CascadeApproves(x, a) then Erase(x)[Status := State(Approved)]
                     else if CascadeRejects(x, a) then
                       Erase(x)[Status := State(Rejected)][RejectionReason := Text("All source findings rejected")]
                     else Erase(x);
            Erase(CascadeItem(env, st, x, a)) == p[Confidence := b]
  {
    hide Erase, CascadeItem, Active, Best, AllHold;
    CascadeErased(env, st, x, a);
    ErasedAt(x, Confidence);
  }

  lemma {:induction false} NewValueAt(ms: seq<FieldMod>, k: Key, i: nat)
    requires DistinctFields(ms) && i < |ms| && ms[i].field == k
    ensures NewValue(ms, k) == ms[i].modified
  {
    var n := |ms| - 1;
    if i < n { NewValueAt(ms[..n], k, i); }
  }

  /** The edit takes the same course whatever the confidence is, if it names it. */
  lemma EditOverConfidence(env: Env, st: Stamp, e: Entry, x: Item)
    requires ReplayableEntry(e) && Names(e.mods, Confidence)
    ensures var y := x[Confidence := NewValue(e.mods, Confidence)];
            && EditItem(env, st, e, y) == EditItem(env, st, e, x)
            && Get(EditItem(env, st, e, x), Confidence) == NewValue(e.mods, Confidence)
            && Confidence in EditItem(env, st, e, x)
  {
    hide ApplyMods, HashOf, OnlyEditable;
    var v := NewValue(e.mods, Confidence);
    ApplyModsOver(st, x, e.mods, Confidence, v);
    var i :| 0 <= i < |e.mods| && e.mods[i].field == Confidence;
    NewValueAt(e.mods, Confidence, i);
    ModsCarried(st, x, e.mods);
    assert Get(ApplyMods(st, x, e.mods), e.mods[i].field) == e.mods[i].modified;
  }

  /** Items that agree once their confidence is set aside and set alike are alike. */
  lemma SetAside(p: Item, q: Item, v: Value)
    requires Confidence in p && p[Confidence] == v
    ensures p - {Confidence} == q - {Confidence} <==> p == q[Confidence := v]
  {
    if p == q[Confidence := v] {
      assert p - {Confidence} == q - {Confidence};
    }
    if p - {Confidence} == q - {Confidence} {
      forall k | k != Confidence ensures (k in p <==> k in q) && Get(p, k) == Get(q, k) {
        assert k in p - {Confidence} <==> k in p;
        assert k in q - {Confidence} <==> k in q;
        if k in p { assert (p - {Confidence})[k] == (q - {Confidence})[k]; }
      }
      assert p == q[Confidence := v];
    }
  }

  lemma CarriesRespects(x: Item, y: Item, ms: seq<FieldMod>)
    requires Erase(x) == Erase(y) && Carries(x, ms) && OnlyEditable(ms)
    ensures Carries(y, ms)
  {
    hide Erase;
    EraseGet(x, y, ExaminerModifications);
    EraseModified(x, y);
    forall i | 0 <= i < |ms|
      ensures ms[i].field in y && y[ms[i].field] == ms[i].modified && ms[i].field in ModsOf(y)
      ensures ModsOf(y)[ms[i].field].original == ms[i].original && ModsOf(y)[ms[i].field].modified == ms[i].modified
    {
      EraseGet(x, y, ms[i].field);
      assert ms[i].field in EraseMods(Mods(ModsOf(x))).mods && ms[i].field in EraseMods(Mods(ModsOf(y))).mods;
      assert EraseMods(Mods(ModsOf(x))).mods[ms[i].field] == EraseMods(Mods(ModsOf(y))).mods[ms[i].field];
    }
  }

  /** Editing would change nothing but the confidence exactly when the edit was made before. */
  lemma MadeBeforeShows(env: Env, st: Stamp, e: Entry, x: Item)
    requires ReplayableEntry(e) && Names(e.mods, Confidence)
    ensures Erase(EditItem(env, st, e, x)) - {Confidence} == Erase(x) - {Confidence} <==> MadeBefore(env, e, x)
  {
    hide Erase, EditItem, Carries, OnlyEditable, DistinctFields, Names, Content, EraseMods;
    var v := NewValue(e.mods, Confidence);
    var d, y := EditItem(env, st, e, x), x[Confidence := v];
    NamesSome(e.mods, Confidence);
    EditOverConfidence(env, st, e, x);
    EditCarries(env, st, e, x);
    EraseSet(x, Confidence, v);
    ErasedAt(d, Confidence);
    SetAside(Erase(d), Erase(x), v);
    if Erase(d) == Erase(y) {
      CarriesRespects(d, y, e.mods);
      EraseContent(env, d, y);
      EraseGet(d, y, ContentHash);
    }
    if MadeBefore(env, e, x) {
      CarriedEdit(env, st, e, y);
      ErasedAt(y, ContentHash);
    }
  }

  /** An edit made by the second commit only shows, unless it was made before. */
  lemma UnblockedEdit(env: Env, st: Stamp, e: Entry, x: Item, a: seq<Item>)
    requires e.action.Edit? && ReplayableEntry(e) && Unblocked(env, e, x, a)
    ensures var y := Next(env, st, Some(e), x, a);
            var z := Next(env, st, Some(e), y, a);
            Erase(z) == Erase(y) <==> MadeBefore(env, e, x)
  {
    hide Erase, EditItem, CascadeItem, Conflict, OnlyEditable, DistinctFields, Active, Best, AllHold, Names, MadeBefore;
    var d := EditItem(env, st, e, x);
    BlockedOnce(env, st, e, x, a);
    UnblockedNames(env, e, x, a);
    NamesSome(e.mods, Confidence);
    MadeBeforeShows(env, st, e, x);
    EditThroughCascade(env, st, e, x, a);
    EditLeaves(env, st, e, x, a);
    RanksApart(env, x, a);
    RankedErased(env, st, x, a);
    RankedErased(env, st, d, a);
    ErasedAt(x, Status);
    ErasedAt(d, Status);
    ErasedAt(x, RejectionReason);
    ErasedAt(d, RejectionReason);
    var approves, rejects := CascadeApproves(x, a), CascadeRejects(x, a);
    Overlaid(Erase(d), Erase(x), approves || rejects, !approves && rejects,
             if approves then State(Approved) else State(Rejected), Text("All source findings rejected"),
             Get(Best(env, Active(a)), Confidence));
  }

  // ---- The exact condition --------------------------------------------------

  /** The second commit leaves the IOC as the first did, up to stamps and notes, exactly when
      `Repeats` says so; and up to its stored hash whenever the cascade unblocks nothing. */
  lemma RepeatsExactly(env: Env, st: Stamp, e: Entry, x: Item, a: seq<Item>)
    requires ReplayableEntry(e) && IsIocId(e.id)
    ensures var y := Next(env, st, Some(e), x, a);
            var z := Next(env, st, Some(e), y, a);
            && (Repeats(env, e, x, a) ==> Erase(z) == Erase(y))
            && (Injective(env) && Erase(z) == Erase(y) ==> Repeats(env, e, x, a))
            && (!Unblocked(env, e, x, a) ==> Rough(z) == Rough(y))
  {
    hide Erase, ApproveItem, EditItem, RejectItem, CascadeItem, Conflict, OnlyEditable, DistinctFields,
         Changing, Names, CascadeRanks, Unblocked;
    var y := Next(env, st, Some(e), x, a);
    if e.action.Reject? {
      RejectedAgain(env, st, e, x, a);
    } else if e.action.UnknownAction? || (e.action.Edit? && e.mods == []) {
      UnmadeRests(env, st, Some(e), x, a);
    } else if !Conflict(x, e.mods) {
      if e.action.Approve? { ApprovalRepeats(env, st, e, x, a); } else { EditRepeats(env, st, e, x, a); }
    } else {
      BlockedOnce(env, st, e, x, a);
      if !Unblocked(env, e, x, a) {
        UnmadeRests(env, st, Some(e), x, a);
      } else if e.action.Approve? {
        UnblockedApproval(env, st, e, x, a);
      } else {
        UnblockedEdit(env, st, e, x, a);
      }
    }
  }

  // ---- Coming to rest -------------------------------------------------------

  /** A commit leaves the cascade nothing to rank. */
  lemma NextNotRanked(env: Env, st: Stamp, o: Option<Entry>, x: Item, a: seq<Item>)
    ensures !CascadeRanks(env, Next(env, st, o, x, a), a)
  {
    hide CascadeItem, DirectItem, Active, Best;
    var d := Decided(env, st, o, x);
    if CascadeOpen(d, a) { CascadeSettles(env, st, d, a); } else { CascadeItemClosed(env, st, d, a); }
  }

  /** From the second commit on, at most the stored hash still changes. */
  lemma RoughRests(env: Env, st: Stamp, e: Entry, x: Item, a: seq<Item>)
    requires ReplayableEntry(e) && IsIocId(e.id)
    ensures var y := Next(env, st, Some(e), x, a);
            var z := Next(env, st, Some(e), y, a);
            Rough(Next(env, st, Some(e), z, a)) == Rough(z)
  {
    hide Next, ReplayableEntry, CascadeRanks, Rough;
    NextNotRanked(env, st, Some(e), x, a);
    RepeatsExactly(env, st, e, Next(env, st, Some(e), x, a), a);
  }

  /** A decision that is made comes to rest with the second commit. */
  lemma MadeRests(env: Env, st: Stamp, e: Entry, x: Item, a: seq<Item>)
    requires ReplayableEntry(e) && IsIocId(e.id) && Applies(e, x)
    ensures var y := Next(env, st, Some(e), x, a);
            var z := Next(env, st, Some(e), y, a);
            Erase(Next(env, st, Some(e), z, a)) == Erase(z)
  {
    hide Erase, ApproveItem, EditItem, RejectItem, CascadeItem, Conflict, OnlyEditable, DistinctFields,
         Changing, Names, CascadeRanks;
    var y := Next(env, st, Some(e), x, a);
    if !Applies(e, y) {
      UnmadeRests(env, st, Some(e), x, a);
    } else {
      NextNotRanked(env, st, Some(e), x, a);
      if e.action.Approve? { ApprovedAgain(env, st, e, x, a); ApprovalFlag(env, st, e, x); }
      assert Repeats(env, e, y, a);
      RepeatsExactly(env, st, e, y, a);
    }
  }

  /** Every IOC comes to rest with the third commit. */
  lemma ThirdRests(env: Env, st: Stamp, o: Option<Entry>, x: Item, a: seq<Item>)
    requires ReplayableOption(o)
    ensures var z := Next(env, st, o, Next(env, st, o, Next(env, st, o, x, a), a), a);
            Erase(Next(env, st, o, z, a)) == Erase(z)
  {
    hide Erase, Next, Applies, ReplayableEntry;
    var p := Next(env, st, o, x, a);
    var q := Next(env, st, o, p, a);
    var r := Next(env, st, o, q, a);
    SameSelf(a);
    if o.Some? && Applies(o.value, x) {
      MadeRests(env, st, o.value, x, a);
      NextRespects(env, st, st, o, r, q, a, a);
    } else if o.Some? && Applies(o.value, p) {
      MadeRests(env, st, o.value, p, a);
    } else {
      UnmadeRests(env, st, o, x, a);
    }
  }

  lemma SameSelf(a: seq<Item>)
    ensures SameSources(a, a)
  {
  }

  lemma {:induction false} NthRests(env: Env, st: Stamp, o: Option<Entry>, x: Item, a: seq<Item>, n: nat)
    requires ReplayableOption(o) && n >= 3
    ensures Erase(Nth(env, st, o, x, a, n)) == Erase(Nth(env, st, o, x, a, 3))
  {
    hide Erase, Next;
    if n > 3 {
      NthRests(env, st, o, x, a, n - 1);
      SameSelf(a);
      NextRespects(env, st, st, o, Nth(env, st, o, x, a, n - 1), Nth(env, st, o, x, a, 3), a, a);
      ThreeTimes(env, st, o, x, a);
      ThirdRests(env, st, o, x, a);
    }
  }

  lemma ThreeTimes(env: Env, st: Stamp, o: Option<Entry>, x: Item, a: seq<Item>)
    ensures Nth(env, st, o, x, a, 1) == Next(env, st, o, x, a)
    ensures Nth(env, st, o, x, a, 2) == Next(env, st, o, Next(env, st, o, x, a), a)
    ensures Nth(env, st, o, x, a, 3) == Next(env, st, o, Next(env, st, o, Next(env, st, o, x, a), a), a)
  {
    hide Next;
    assert Nth(env, st, o, x, a, 0) == x;
  }

  /** An IOC that no decision names, or that the second commit leaves as the first did, stays. */
  lemma {:induction false} NthStays(env: Env, st: Stamp, o: Option<Entry>, x: Item, a: seq<Item>, n: nat)
    requires ReplayableOption(o) && n >= 1 && (o.Some? ==> Repeats(env, o.value, x, a))
    ensures Erase(Nth(env, st, o, x, a, n)) == Erase(Nth(env, st, o, x, a, 1))
  {
    hide Erase, Next, Repeats, ReplayableEntry;
    if n > 1 {
      NthStays(env, st, o, x, a, n - 1);
      SameSelf(a);
      NextRespects(env, st, st, o, Nth(env, st, o, x, a, n - 1), Nth(env, st, o, x, a, 1), a, a);
      ThreeTimes(env, st, o, x, a);
      if o.Some? { RepeatsExactly(env, st, o.value, x, a); } else { UnmadeRests(env, st, o, x, a); }
    }
  }

  lemma {:induction false} NthRough(env: Env, st: Stamp, e: Entry, x: Item, a: seq<Item>, n: nat)
    requires ReplayableEntry(e) && IsIocId(e.id) && n >= 1
    ensures n >= 2 ==> Rough(Nth(env, st, Some(e), x, a, n)) == Rough(Nth(env, st, Some(e), x, a, 2))
    ensures !Unblocked(env, e, x, a) ==> Rough(Nth(env, st, Some(e), x, a, n)) == Rough(Nth(env, st, Some(e), x, a, 1))
  {
    hide Rough, Next, Unblocked, ReplayableEntry;
    if n > 1 {
      NthRough(env, st, e, x, a, n - 1);
      ThreeTimes(env, st, Some(e), x, a);
      RepeatsExactly(env, st, e, x, a);
      if n > 2 {
        ThreeTimes(env, st, Some(e), Nth(env, st, Some(e), x, a, n - 3), a);
        RoughRests(env, st, e, Nth(env, st, Some(e), x, a, n - 3), a);
      }
    }
  }

  // ---- No new exceptions ----------------------------------------------------

  /** A commit that does not raise on an IOC leaves it so that the next does not either. */
  lemma NextIsSafe(env: Env, st: Stamp, o: Option<Entry>, x: Item, a: seq<Item>)
    requires ReplayableOption(o) && !CascadeRaises(env, Decided(env, st, o, x), a)
    ensures !CascadeRaises(env, Decided(env, st, o, Next(env, st, o, x, a)), a)
  {
    hide Erase, ApproveItem, EditItem, RejectItem, CascadeItem, Conflict, OnlyEditable, DistinctFields, CascadeRaises;
    var y := Next(env, st, o, x, a);
    CascadeTwice(env, st, st, Decided(env, st, o, x), a);
    if o.Some? && Applies(o.value, y) {
      var e := o.value;
      if e.action.Approve? {
        ApprovalShields(env, st, e, y, a);
        ClosedIsSafe(env, ApproveItem(env, st, e, y), a);
      } else if e.action.Reject? {
        RejectBooks(st, e, y);
        ClosedIsSafe(env, RejectItem(st, e, y), a);
      } else {
        EditIsSafe(env, st, e, x, a);
      }
    }
  }

  lemma ClosedIsSafe(env: Env, x: Item, a: seq<Item>)
    requires !CascadeOpen(x, a)
    ensures !CascadeRaises(env, x, a)
  {
  }

  lemma EditIsSafe(env: Env, st: Stamp, e: Entry, x: Item, a: seq<Item>)
    requires e.action.Edit? && ReplayableEntry(e)
    requires var y := Next(env, st, Some(e), x, a); Applies(e, y)
    requires !CascadeRaises(env, DirectItem(env, st, e, x), a)
    ensures !CascadeRaises(env, EditItem(env, st, e, Next(env, st, Some(e), x, a)), a)
  {
    hide Erase, EditItem, CascadeItem, Conflict, OnlyEditable, DistinctFields, Names, CascadeRaises;
    var d := DirectItem(env, st, e, x);
    var y := Next(env, st, Some(e), x, a);
    var f := EditItem(env, st, e, y);
    EditLeaves(env, st, e, x, a);
    EditLeaves(env, st, e, y, a);
    CascadeLeaves(env, st, d, a, ManuallyReviewed);
    if Applies(e, x) {
      if Names(e.mods, Confidence) {
        SameConfidence(env, st, e, x, y);
        SameRanks(env, d, f, a);
      } else {
        NextNotRanked(env, st, Some(e), x, a);
        SameRanks(env, y, f, a);
      }
    } else {
      NamesSome(e.mods, Confidence);
      BlockedOnce(env, st, e, x, a);
    }
    SafeToo(env, d, f, a);
  }

  lemma SameConfidence(env: Env, st: Stamp, e: Entry, x: Item, y: Item)
    requires ReplayableEntry(e) && Names(e.mods, Confidence)
    ensures Get(EditItem(env, st, e, x), Confidence) == Get(EditItem(env, st, e, y), Confidence)
  {
    hide EditItem, OnlyEditable, DistinctFields;
    var i :| 0 <= i < |e.mods| && e.mods[i].field == Confidence;
    EditCarries(env, st, e, x);
    EditCarries(env, st, e, y);
    assert Get(EditItem(env, st, e, x), e.mods[i].field) == Get(EditItem(env, st, e, y), e.mods[i].field);
  }

  lemma SameRanks(env: Env, x: Item, y: Item, a: seq<Item>)
    requires CascadeOpen(x, a) == CascadeOpen(y, a) && Get(x, Confidence) == Get(y, Confidence)
    ensures CascadeRanks(env, x, a) == CascadeRanks(env, y, a)
  {
  }

  lemma SafeToo(env: Env, x: Item, y: Item, a: seq<Item>)
    requires CascadeOpen(x, a) == CascadeOpen(y, a) && (CascadeRanks(env, y, a) ==> CascadeRanks(env, x, a))
    requires !CascadeRaises(env, x, a)
    ensures !CascadeRaises(env, y, a)
  {
  }

  lemma {:induction false} NthIsSafe(env: Env, st: Stamp, o: Option<Entry>, x: Item, a: seq<Item>, n: nat)
    requires ReplayableOption(o) && !CascadeRaises(env, Decided(env, st, o, x), a)
    ensures !CascadeRaises(env, Decided(env, st, o, Nth(env, st, o, x, a, n)), a)
  {
    hide Next, Decided, CascadeRaises;
    if n > 0 {
      NthIsSafe(env, st, o, x, a, n - 1);
      NextIsSafe(env, st, o, Nth(env, st, o, x, a, n - 1), a);
    }
  }
}
