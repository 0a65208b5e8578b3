/** What one commit leaves behind, item by item, and the closure of its two coupling
    passes: every follower agrees with its settled sources. */
module ReviewCoupling {
  import opened Options
  import opened ReviewModel
  import opened ReviewEngine
  import opened ReviewBooks

  // ---- What an action leaves alone ------------------------------------------

  /** Keys no step of a commit writes. */
  predicate Fixed(k: Key) {
    k.AutoCreatedFrom? || k.SourceFindings? || k.Unhashed? || k.Other?
  }

  lemma {:induction false} ApplyModsKeeps(st: Stamp, x: Item, ms: seq<FieldMod>, k: Key)
    requires !Editable(k) && k != ExaminerModifications
    ensures Get(ApplyMods(st, x, ms), k) == Get(x, k)
  {
    if ms != [] { ApplyModsKeeps(st, x, ms[..|ms|-1], k); }
  }

  lemma DirectItemKeeps(env: Env, st: Stamp, e: Entry, x: Item, k: Key)
    requires Fixed(k)
    ensures Get(DirectItem(env, st, e, x), k) == Get(x, k)
  {
    hide ApproveItem, EditItem, RejectItem, Conflict, ApplyMods, HashOf;
    ApplyModsKeeps(st, x, e.mods, k);
    ApproveBooks(env, st, e, x);
    EditBooks(env, st, e, x);
    RejectBooks(st, e, x);
  }

  lemma {:induction false} DirectKeeps(env: Env, st: Stamp, w: Work, es: seq<Entry>, id: ItemId, k: Key)
    requires Fixed(k) && id in w.items
    ensures id in Direct(env, st, w, es).items
    ensures Get(Direct(env, st, w, es).items[id], k) == Get(w.items[id], k)
  {
    if es != [] {
      var u := Direct(env, st, w, es[..|es|-1]);
      DirectKeeps(env, st, w, es[..|es|-1], id, k);
      var e := es[|es|-1];
      if e.id in u.items { DirectItemKeeps(env, st, e, u.items[e.id], k); }
    }
  }

  // ---- Timeline coupling, item by item --------------------------------------

  lemma {:induction false} CoupleFrame(env: Env, st: Stamp, w: Work, ids: seq<ItemId>, id: ItemId)
    requires forall i :: i in ids ==> i in w.items
    requires id in w.items
    requires id !in ids || !Coupled(w.items[id])
    ensures Couple(env, st, w, ids).items[id] == w.items[id]
  {
    hide CoupleLog;
    if ids != [] { CoupleFrame(env, st, w, ids[..|ids|-1], id); }
  }

  lemma CoupleUnfold(env: Env, st: Stamp, w: Work, ids: seq<ItemId>)
    requires ids != [] && forall i :: i in ids ==> i in w.items
    ensures var u := Couple(env, st, w, ids[..|ids|-1]).items;
            var id := ids[|ids|-1];
            Couple(env, st, w, ids).items == u[id := CoupleItem(env, st, u[id], SourceStatus(u, u[id]))]
  {
    hide CoupleItem, CoupleLog, SourceStatus;
  }

  lemma UncoupledStays(env: Env, st: Stamp, x: Item)
    requires !Coupled(x)
    ensures forall ss :: CoupleItem(env, st, x, ss) == x
  {
  }

  /** The pass reaches the i-th item before its source can still move. */
  ghost predicate SourceSettled(items: map<ItemId, Item>, ids: seq<ItemId>, i: nat)
    requires i < |ids| && ids[i] in items
  {
    var s := SourceOf(items[ids[i]]);
    s.Some? && s.value in items && s.value in ids[i..] ==> !Coupled(items[s.value])
  }

  lemma {:induction false} CoupleAt(env: Env, st: Stamp, w: Work, ids: seq<ItemId>, i: nat)
    requires Distinct(ids) && (forall j :: j in ids ==> j in w.items)
    requires i < |ids| && SourceSettled(w.items, ids, i)
    ensures var x := w.items[ids[i]];
            var r := Couple(env, st, w, ids);
            r.items[ids[i]] == CoupleItem(env, st, x, SourceStatus(r.items, x))
  {
    hide CoupleItem, Couple, Coupled, SourceOf;
    var n := |ids| - 1;
    var front := ids[..n];
    CoupleUnfold(env, st, w, ids);
    var u := Couple(env, st, w, front);
    var x := w.items[ids[i]];
    var s := SourceOf(x);
    if i == n {
      CoupleFrame(env, st, w, front, ids[n]);
      if s.Some? && s.value == ids[n] {
        assert ids[n] in ids[i..];
        UncoupledStays(env, st, x);
      }
    } else {
      assert forall j :: j in front[i..] ==> j in ids[i..];
      CoupleAt(env, st, w, front, i);
      if s.Some? && s.value == ids[n] {
        assert ids[i..][n - i] == ids[n];
        CoupleFrame(env, st, w, front, ids[n]);
        CoupleFrame(env, st, w, ids, ids[n]);
      }
    }
  }

  /** Every visit, settled or not: the item is made from its source as the pass has it then. */
  lemma {:induction false} VisitAt(env: Env, st: Stamp, w: Work, ids: seq<ItemId>, i: nat)
    requires Distinct(ids) && (forall j :: j in ids ==> j in w.items) && i < |ids|
    ensures forall j :: j in ids[..i] ==> j in w.items
    ensures var x := w.items[ids[i]];
            Couple(env, st, w, ids).items[ids[i]] ==
            CoupleItem(env, st, x, SourceStatus(Couple(env, st, w, ids[..i]).items, x))
  {
    hide CoupleItem, Couple, Coupled, SourceStatus;
    var n := |ids| - 1;
    CoupleUnfold(env, st, w, ids);
    if i == n {
      CoupleFrame(env, st, w, ids[..n], ids[n]);
    } else {
      assert ids[..n][..i] == ids[..i];
      VisitAt(env, st, w, ids[..n], i);
    }
  }

  /** What the rest of the pass does not visit stays. */
  lemma {:induction false} RestFrame(env: Env, st: Stamp, w: Work, ids: seq<ItemId>, i: nat, id: ItemId)
    requires (forall j :: j in ids ==> j in w.items) && i <= |ids|
    requires id in w.items && id !in ids[i..]
    ensures forall j :: j in ids[..i] ==> j in w.items
    ensures Couple(env, st, w, ids).items[id] == Couple(env, st, w, ids[..i]).items[id]
    decreases |ids|
  {
    hide CoupleItem, Couple;
    if i == |ids| {
      assert ids[..i] == ids;
    } else {
      var n := |ids| - 1;
      assert ids[i..][n - i] == ids[n];
      assert ids[..n][..i] == ids[..i] && ids[i..] == ids[..n][i..] + [ids[n]];
      CoupleUnfold(env, st, w, ids);
      RestFrame(env, st, w, ids[..n], i, id);
    }
  }

  predicate Verdict(v: Value) {
    v == State(Approved) || v == State(Rejected)
  }

  /** The item may still be coupled and does not have the status its source was given. */
  ghost predicate Behind(items: map<ItemId, Item>, id: ItemId)
    requires id in items
  {
    var s := SourceOf(items[id]);
    && Coupled(items[id]) && s.value in items
    && Verdict(Get(items[s.value], Status)) && Get(items[s.value], Status) != Get(items[id], Status)
  }

  lemma CoupledStatus(env: Env, st: Stamp, x: Item, ss: Value)
    ensures var y := CoupleItem(env, st, x, ss);
            && SourceOf(y) == SourceOf(x) && Coupled(y) == Coupled(x)
            && (Coupled(x) ==> Get(y, Status) == if Verdict(ss) then ss else Get(x, Status))
  {
    hide CoupleItem, AgreeOffBooks, Coupled, Content;
    CoupleBooks(env, st, x, ss);
    BooksAgree(env, x, CoupleItem(env, st, x, ss));
  }

  /** Where an id is listed. */
  function IndexOf(ids: seq<ItemId>, id: ItemId): (i: nat)
    requires id in ids
    ensures i < |ids| && ids[i] == id
  {
    if ids[|ids|-1] == id then |ids| - 1 else IndexOf(ids[..|ids|-1], id)
  }

  /** The status the pass will give the i-th item, read off the items before the pass: an item
      that is not coupled keeps its own, and a coupled one takes an approval or rejection from
      its source, as the pass will have left it if it is listed earlier and as it is otherwise. */
  function EndStatus(items: map<ItemId, Item>, ids: seq<ItemId>, i: nat): Value
    requires i < |ids| && forall id :: id in ids ==> id in items
    decreases i
  {
    var x := items[ids[i]];
    if !Coupled(x) then Get(x, Status)
    else
      var s := SourceOf(x).value;
      var ss := if s !in items then Null
                else if s in ids[..i] then EndStatus(items, ids, IndexOf(ids[..i], s))
                else Get(items[s], Status);
      if Verdict(ss) then ss else Get(x, Status)
  }

  lemma {:induction false} EndStatusIs(env: Env, st: Stamp, w: Work, ids: seq<ItemId>, i: nat)
    requires Distinct(ids) && (forall j :: j in ids ==> j in w.items) && i < |ids|
    ensures Get(Couple(env, st, w, ids).items[ids[i]], Status) == EndStatus(w.items, ids, i)
    decreases i
  {
    hide CoupleItem, Couple, Coupled, Verdict, IndexOf;
    var x := w.items[ids[i]];
    var s := SourceOf(x);
    VisitAt(env, st, w, ids, i);
    var u := Couple(env, st, w, ids[..i]).items;
    CoupledStatus(env, st, x, SourceStatus(u, x));
    CoupledHasSource(x);
    if !Coupled(x) {
      UncoupledStays(env, st, x);
    } else if s.value in w.items {
      VerdictOrNot(u, x);
      if s.value in ids[..i] {
        var j := IndexOf(ids[..i], s.value);
        assert ids[j] == s.value;
        assert forall k :: i <= k < |ids| ==> ids[k] != s.value;
        RestFrame(env, st, w, ids, i, s.value);
        EndStatusIs(env, st, w, ids, j);
      } else {
        CoupleFrame(env, st, w, ids[..i], s.value);
      }
    } else {
      UnknownSource(u, x);
    }
  }

  lemma UnknownSource(items: map<ItemId, Item>, x: Item)
    requires SourceOf(x).Some? && SourceOf(x).value !in items
    ensures SourceStatus(items, x) == Null && !Verdict(Null)
  {
  }

  /** The source is listed after the item and will be given a status the item will not have. */
  ghost predicate Outrun(items: map<ItemId, Item>, ids: seq<ItemId>, i: nat)
    requires i < |ids| && forall id :: id in ids ==> id in items
  {
    && Coupled(items[ids[i]])
    && exists k :: i < k < |ids| && SourceOf(items[ids[i]]) == Some(ids[k]) &&
                   Verdict(EndStatus(items, ids, k)) && EndStatus(items, ids, k) != EndStatus(items, ids, i)
  }

  /** Exactly when one pass leaves an item behind, read off the items before the pass. */
  lemma LeftBehindExactly(env: Env, st: Stamp, w: Work, ids: seq<ItemId>, i: nat)
    requires Distinct(ids) && (forall j :: j in ids ==> j in w.items) && i < |ids|
    ensures Behind(Couple(env, st, w, ids).items, ids[i]) <==> Outrun(w.items, ids, i)
  {
    hide CoupleItem, Couple, Coupled, Verdict, EndStatus;
    var x := w.items[ids[i]];
    var s := SourceOf(x);
    var r := Couple(env, st, w, ids).items;
    CoupledHasSource(x);
    VisitAt(env, st, w, ids, i);
    var u := Couple(env, st, w, ids[..i]).items;
    CoupledStatus(env, st, x, SourceStatus(u, x));
    EndStatusIs(env, st, w, ids, i);
    if k :| i < k < |ids| && s == Some(ids[k]) { EndStatusIs(env, st, w, ids, k); }
    if Coupled(x) && s.value in w.items && s.value !in ids[i + 1..] && s.value != ids[i] {
      assert ids[i..] == [ids[i]] + ids[i + 1..];
      RestFrame(env, st, w, ids, i, s.value);
      VerdictOrNot(u, x);
    }
    if s.Some? && s.value in ids[i + 1..] {
      var k :| 0 <= k < |ids[i + 1..]| && ids[i + 1..][k] == s.value;
      assert ids[i + 1 + k] == s.value;
      EndStatusIs(env, st, w, ids, i + 1 + k);
    }
  }

  lemma VerdictOrNot(items: map<ItemId, Item>, x: Item)
    requires SourceOf(x).Some? && SourceOf(x).value in items
    ensures SourceStatus(items, x) == Get(items[SourceOf(x).value], Status)
  {
  }

  // ---- IOC cascade, item by item --------------------------------------------

  lemma {:induction false} KnownAgree(a: map<ItemId, Item>, b: map<ItemId, Item>, ids: seq<ItemId>)
    requires forall id :: id in ids ==> (id in a <==> id in b)
    requires forall id :: id in ids && id in a && id in b ==> a[id] == b[id]
    ensures Known(a, ids) == Known(b, ids)
  {
    if ids != [] { KnownAgree(a, b, ids[..|ids|-1]); }
  }

  lemma {:induction false} CascadeFrame(env: Env, st: Stamp, w: Work, ids: seq<ItemId>, id: ItemId)
    requires forall i :: i in ids ==> i in w.items
    requires Cascade(env, st, w, ids).Some?
    requires id in w.items && id !in ids
    ensures Cascade(env, st, w, ids).value.items[id] == w.items[id]
  {
    if ids != [] { CascadeFrame(env, st, w, ids[..|ids|-1], id); }
  }

  lemma CascadeUnfold(env: Env, st: Stamp, w: Work, ids: seq<ItemId>)
    requires ids != [] && forall i :: i in ids ==> i in w.items
    requires Cascade(env, st, w, ids).Some?
    ensures Cascade(env, st, w, ids[..|ids|-1]).Some?
    ensures var u := Cascade(env, st, w, ids[..|ids|-1]).value.items;
            var id := ids[|ids|-1];
            && !CascadeRaises(env, u[id], Sources(u, u[id]))
            && Cascade(env, st, w, ids).value.items == u[id := CascadeItem(env, st, u[id], Sources(u, u[id]))]
  {
    hide CascadeItem, CascadeRaises, Sources, CascadeLog, CascadeApproves, CascadeRejects, CascadeRanks;
  }

  /** The ids an IOC names as its sources. */
  function Named(x: Item): seq<ItemId> {
    match Get(x, SourceFindings)
    case Ids(ids) => ids
    case _ => []
  }

  ghost predicate Disjoint(a: seq<ItemId>, b: seq<ItemId>) {
    forall id :: id in a ==> id !in b
  }

  lemma {:induction false} CascadeAt(env: Env, st: Stamp, w: Work, ids: seq<ItemId>, id: ItemId)
    requires Distinct(ids) && (forall j :: j in ids ==> j in w.items)
    requires Cascade(env, st, w, ids).Some?
    requires id in ids && Disjoint(Named(w.items[id]), ids)
    ensures var x := w.items[id];
            var r := Cascade(env, st, w, ids).value;
            && Sources(r.items, x) == Sources(w.items, x)
            && !CascadeRaises(env, x, Sources(w.items, x))
            && r.items[id] == CascadeItem(env, st, x, Sources(w.items, x))
  {
    hide Cascade, CascadeItem, CascadeRaises, Known, Named;
    var n := |ids| - 1;
    var front := ids[..n];
    CascadeUnfold(env, st, w, ids);
    var u := Cascade(env, st, w, front).value;
    var x := w.items[id];
    SourcesNamed(w.items, x);
    SourcesNamed(u.items, x);
    var r := Cascade(env, st, w, ids).value;
    forall s | s in Named(x) && s in w.items
      ensures u.items[s] == w.items[s] && r.items[s] == w.items[s]
    {
      CascadeFrame(env, st, w, front, s);
      CascadeFrame(env, st, w, ids, s);
    }
    SourcesNamed(r.items, x);
    KnownAgree(w.items, r.items, Named(x));
    KnownAgree(w.items, u.items, Named(x));
    if id == ids[n] {
      CascadeFrame(env, st, w, front, id);
    } else {
      CascadeAt(env, st, w, front, id);
    }
  }

  // ---- Closure --------------------------------------------------------------

  lemma {:induction false} BestIsFirstMinimum(env: Env, xs: seq<Item>) returns (i: nat)
    requires xs != []
    ensures i < |xs| && Best(env, xs) == xs[i]
    ensures forall j :: 0 <= j < |xs| ==> Rank(env, xs[i]) <= Rank(env, xs[j])
    ensures forall j :: 0 <= j < i ==> Rank(env, xs[i]) < Rank(env, xs[j])
  {
    var n := |xs| - 1;
    if n == 0 {
      i := 0;
    } else {
      i := BestIsFirstMinimum(env, xs[..n]);
      if Rank(env, xs[n]) < Rank(env, xs[i]) {
        i := n;
        assert forall j :: 0 <= j < n ==> xs[..n][j] == xs[j];
      }
    }
  }

  lemma {:induction false} ActiveMembers(srcs: seq<Item>, x: Item)
    ensures x in Active(srcs) <==> x in srcs && Get(x, Status) != State(Rejected)
  {
    if srcs != [] {
      ActiveMembers(srcs[..|srcs|-1], x);
      assert srcs == srcs[..|srcs|-1] + [srcs[|srcs|-1]];
    }
  }

  /** A timeline event follows a source that is not an IOC and that either follows nothing
      itself or comes earlier in the case files. */
  ghost predicate FollowsForward(lay: Layout, items: map<ItemId, Item>, id: ItemId)
    requires id in items
  {
    var s := SourceOf(items[id]);
    s.Some? && s.value in items ==>
      && !IsIocId(s.value)
      && (SourceOf(items[s.value]).None? ||
          exists i, j :: 0 <= i < j < |lay.All()| && lay.All()[i] == s.value && lay.All()[j] == id)
  }

  /** The state a commit reaches before the cascade, seen from one id. */
  lemma AfterCascade(env: Env, st: Stamp, lay: Layout, items: map<ItemId, Item>, es: seq<Entry>, id: ItemId)
    requires WellFormed(lay, items) && id in items
    requires Commit(env, st, lay, items, es).Some?
    requires !IsIocId(id)
    ensures Commit(env, st, lay, items, es).value.items[id] == Reviewed(env, st, lay, items, es).items[id]
  {
    CascadeFrame(env, st, Reviewed(env, st, lay, items, es), lay.iocs, id);
  }

  lemma NotLater(all: seq<ItemId>, j: nat, s: ItemId)
    requires Distinct(all) && j < |all|
    ensures (exists a, b :: 0 <= a < b < |all| && all[a] == s && all[b] == all[j]) ==> s !in all[j..]
  {
    if k :| 0 <= k < |all[j..]| && all[j..][k] == s {
      assert all[j + k] == s;
    }
  }

  lemma NoSourceUncoupled(x: Item)
    requires SourceOf(x).None?
    ensures !Coupled(x)
  {
  }

  lemma SettledForward(lay: Layout, items: map<ItemId, Item>, w: Work, i: nat)
    requires WellFormed(lay, items) && w.items.Keys == items.Keys
    requires forall id :: id in items ==> SourceOf(w.items[id]) == SourceOf(items[id])
    requires i < |lay.All()| && FollowsForward(lay, items, lay.All()[i])
    ensures SourceSettled(w.items, lay.All(), i)
  {
    hide SourceOf;
    var all := lay.All();
    var s := SourceOf(items[all[i]]);
    if s.Some? && s.value in items {
      NotLater(all, i, s.value);
      if SourceOf(items[s.value]).None? { NoSourceUncoupled(w.items[s.value]); }
    }
  }

  lemma SourceKept(env: Env, st: Stamp, items: map<ItemId, Item>, es: seq<Entry>, id: ItemId)
    requires id in items
    ensures id in Direct(env, st, Loaded(items), Ordered(es)).items
    ensures SourceOf(Direct(env, st, Loaded(items), Ordered(es)).items[id]) == SourceOf(items[id])
  {
    DirectKeeps(env, st, Loaded(items), Ordered(es), id, AutoCreatedFrom);
  }

  lemma CoupleItemAgrees(env: Env, st: Stamp, x: Item, ss: Value)
    ensures var y := CoupleItem(env, st, x, ss);
            && SourceOf(y) == SourceOf(x)
            && (Coupled(y) ==> SourceOf(y).Some?)
            && (Coupled(y) && ss == State(Approved) ==> Get(y, Status) == State(Approved))
            && (Coupled(y) && ss == State(Rejected) ==> Get(y, Status) == State(Rejected))
  {
    hide CoupleItem, AgreeOffBooks, Coupled, Content;
    CoupleBooks(env, st, x, ss);
    BooksAgree(env, x, CoupleItem(env, st, x, ss));
    CoupledHasSource(x);
  }

  lemma CoupledHasSource(x: Item)
    ensures Coupled(x) ==> SourceOf(x).Some?
  {
  }

  /** One pass closes the coupling: after every commit, an auto-created item that no
      examiner has modified agrees with an approved or a rejected source. */
  lemma TimelineClosure(env: Env, st: Stamp, lay: Layout, items: map<ItemId, Item>, es: seq<Entry>, id: ItemId)
    requires WellFormed(lay, items) && id in items && !IsIocId(id)
    requires Commit(env, st, lay, items, es).Some?
    requires FollowsForward(lay, items, id)
    ensures var r := Commit(env, st, lay, items, es).value.items;
            var s := SourceOf(r[id]);
            && s == SourceOf(items[id])
            && (Coupled(r[id]) && s.value in items ==>
                  && (Get(r[s.value], Status) == State(Approved) ==> Get(r[id], Status) == State(Approved))
                  && (Get(r[s.value], Status) == State(Rejected) ==> Get(r[id], Status) == State(Rejected)))
  {
    hide CoupleItem, Couple, Cascade, Direct, SourceOf, Coupled;
    var d := Direct(env, st, Loaded(items), Ordered(es));
    DirectKeys(env, st, Loaded(items), Ordered(es));
    forall i | i in items ensures SourceOf(d.items[i]) == SourceOf(items[i]) {
      SourceKept(env, st, items, es, i);
    }
    assert id in lay.All();
    var i :| 0 <= i < |lay.All()| && lay.All()[i] == id;
    SettledForward(lay, items, d, i);
    CoupleAt(env, st, d, lay.All(), i);
    var r := Reviewed(env, st, lay, items, es);
    CoupleItemAgrees(env, st, d.items[id], SourceStatus(r.items, d.items[id]));
    AfterCascade(env, st, lay, items, es, id);
    var s := SourceOf(items[id]);
    if s.Some? && s.value in items { AfterCascade(env, st, lay, items, es, s.value); }
  }

  /** And exactly when a commit leaves an item behind, whatever follows what, read off the items
      as the direct actions leave them. */
  lemma CommitLeavesBehind(env: Env, st: Stamp, lay: Layout, items: map<ItemId, Item>, es: seq<Entry>, i: nat)
    requires WellFormed(lay, items) && i < |lay.All()| && !IsIocId(lay.All()[i])
    requires Commit(env, st, lay, items, es).Some?
    requires var s := SourceOf(items[lay.All()[i]]); s.Some? ==> !IsIocId(s.value)
    ensures Direct(env, st, Loaded(items), Ordered(es)).items.Keys == items.Keys
    ensures Behind(Commit(env, st, lay, items, es).value.items, lay.All()[i]) <==>
            Outrun(Direct(env, st, Loaded(items), Ordered(es)).items, lay.All(), i)
  {
    hide Couple, Cascade, Direct, Coupled, Verdict, SourceOf, Outrun;
    var d := Direct(env, st, Loaded(items), Ordered(es));
    var all := lay.All();
    var id := all[i];
    DirectKeys(env, st, Loaded(items), Ordered(es));
    LeftBehindExactly(env, st, d, all, i);
    SourceKept(env, st, items, es, id);
    AfterCascade(env, st, lay, items, es, id);
    VisitAt(env, st, d, all, i);
    CoupledStatus(env, st, d.items[id], SourceStatus(Couple(env, st, d, all[..i]).items, d.items[id]));
    CoupledHasSource(d.items[id]);
    var s := SourceOf(items[id]);
    if s.Some? && s.value in items { AfterCascade(env, st, lay, items, es, s.value); }
  }

  /** What the cascade owes an IOC, given its sources. */
  ghost predicate Cascaded(env: Env, before: Item, after: Item, srcs: seq<Item>) {
    if !Truthy(Get(after, ManuallyReviewed)) && srcs != [] then
      && (AllHold(srcs, Approved) ==> Get(after, Status) == State(Approved))
      && (AllHold(srcs, Rejected) ==> Get(after, Status) == State(Rejected))
      && (!AllHold(srcs, Approved) && !AllHold(srcs, Rejected) ==>
            Get(after, Status) == Get(before, Status))
      && ((exists y :: y in srcs && Get(y, Status) != State(Rejected)) ==>
            BestWord(env, srcs, Get(after, Confidence)))
    else after == before
  }

  // ---- Confidence, by its words ---------------------------------------------

  /** The item's confidence is a text that upper-cases to the word. */
  predicate Says(env: Env, x: Item, word: string) {
    match Get(x, Confidence)
    case Text(s) => s != "" && env.upper(s) == word
    case _ => false
  }

  predicate Stands(x: Item) {
    Get(x, Status) != State(Rejected)
  }

  /** The i-th source is the first that is not rejected and says the word. */
  ghost predicate FirstSaying(env: Env, srcs: seq<Item>, i: int, word: string) {
    && 0 <= i < |srcs| && Stands(srcs[i]) && Says(env, srcs[i], word)
    && forall j :: 0 <= j < i ==> !(Stands(srcs[j]) && Says(env, srcs[j], word))
  }

  ghost predicate AnySays(env: Env, srcs: seq<Item>, word: string) {
    exists i :: 0 <= i < |srcs| && Stands(srcs[i]) && Says(env, srcs[i], word)
  }

  ghost predicate FirstStanding(srcs: seq<Item>, i: int) {
    0 <= i < |srcs| && Stands(srcs[i]) && forall j :: 0 <= j < i ==> !Stands(srcs[j])
  }

  /** The confidence of the first source that is HIGH; failing any, of the first that is MEDIUM;
      then of the first that is LOW; and otherwise of the first source that is not rejected. */
  ghost predicate BestWord(env: Env, srcs: seq<Item>, v: Value) {
    if AnySays(env, srcs, "HIGH") then exists i :: FirstSaying(env, srcs, i, "HIGH") && v == Get(srcs[i], Confidence)
    else if AnySays(env, srcs, "MEDIUM") then exists i :: FirstSaying(env, srcs, i, "MEDIUM") && v == Get(srcs[i], Confidence)
    else if AnySays(env, srcs, "LOW") then exists i :: FirstSaying(env, srcs, i, "LOW") && v == Get(srcs[i], Confidence)
    else exists i :: FirstStanding(srcs, i) && v == Get(srcs[i], Confidence)
  }

  lemma RankOf(env: Env, x: Item)
    ensures Rank(env, x) == if Says(env, x, "HIGH") then 0 else if Says(env, x, "MEDIUM") then 1
                            else if Says(env, x, "LOW") then 2 else 99
    ensures !(Says(env, x, "HIGH") && Says(env, x, "MEDIUM")) && !(Says(env, x, "HIGH") && Says(env, x, "LOW"))
  {
  }

  /** Where the k-th active source stands among all; every standing one before it is active
      before it. */
  lemma {:induction false} ActiveAt(srcs: seq<Item>, k: nat) returns (i: nat)
    requires k < |Active(srcs)|
    ensures i < |srcs| && Stands(srcs[i]) && srcs[i] == Active(srcs)[k]
    ensures forall j :: 0 <= j < i && Stands(srcs[j]) ==> srcs[j] in Active(srcs)[..k]
  {
    var n := |srcs| - 1;
    if k < |Active(srcs[..n])| {
      i := ActiveAt(srcs[..n], k);
      assert Active(srcs)[..k] == Active(srcs[..n])[..k];
    } else {
      i := n;
      forall j | 0 <= j < n && Stands(srcs[j]) ensures srcs[j] in Active(srcs)[..k] {
        assert srcs[..n][j] in srcs[..n];
        ActiveMembers(srcs[..n], srcs[j]);
        assert Active(srcs)[..k] == Active(srcs[..n]);
      }
    }
  }

  lemma BestWordHolds(env: Env, srcs: seq<Item>)
    requires Active(srcs) != []
    ensures BestWord(env, srcs, Get(Best(env, Active(srcs)), Confidence))
  {
    hide Active, Best, Rank, Says;
    var k := BestIsFirstMinimum(env, Active(srcs));
    var i := ActiveAt(srcs, k);
    RankOf(env, srcs[i]);
    forall j | 0 <= j < |srcs| && Stands(srcs[j])
      ensures Rank(env, srcs[i]) <= Rank(env, srcs[j]) && (j < i ==> Rank(env, srcs[i]) < Rank(env, srcs[j]))
    {
      assert srcs[j] in srcs;
      ActiveMembers(srcs, srcs[j]);
      RankOf(env, srcs[j]);
    }
    forall j | 0 <= j < |srcs| ensures Rank(env, srcs[j]) in {0, 1, 2, 99} { RankOf(env, srcs[j]); }
    WordsByRank(env, srcs, i);
  }

  lemma WordsByRank(env: Env, srcs: seq<Item>, i: nat)
    requires i < |srcs| && Stands(srcs[i])
    requires forall j :: 0 <= j < |srcs| && Stands(srcs[j]) ==>
               Rank(env, srcs[i]) <= Rank(env, srcs[j]) && (j < i ==> Rank(env, srcs[i]) < Rank(env, srcs[j]))
    ensures BestWord(env, srcs, Get(srcs[i], Confidence))
  {
    hide Rank, Says, Get;
    forall j | 0 <= j < |srcs|
      ensures Rank(env, srcs[j]) == if Says(env, srcs[j], "HIGH") then 0 else if Says(env, srcs[j], "MEDIUM") then 1
                                    else if Says(env, srcs[j], "LOW") then 2 else 99
    {
      RankOf(env, srcs[j]);
    }
    if AnySays(env, srcs, "HIGH") {
      assert FirstSaying(env, srcs, i, "HIGH");
    } else if AnySays(env, srcs, "MEDIUM") {
      assert FirstSaying(env, srcs, i, "MEDIUM");
    } else if AnySays(env, srcs, "LOW") {
      assert FirstSaying(env, srcs, i, "LOW");
    } else {
      assert FirstStanding(srcs, i);
    }
  }

  lemma CascadeItemStatus(env: Env, st: Stamp, x: Item, srcs: seq<Item>)
    requires CascadeOpen(x, srcs)
    ensures var y := CascadeItem(env, st, x, srcs);
            && CascadeOpen(y, srcs) && Named(y) == Named(x)
            && (AllHold(srcs, Approved) ==> Get(y, Status) == State(Approved))
            && (AllHold(srcs, Rejected) ==> Get(y, Status) == State(Rejected))
            && (!AllHold(srcs, Approved) && !AllHold(srcs, Rejected) ==>
                  Get(y, Status) == Get(x, Status))
            && (Active(srcs) != [] ==>
                  Get(y, Confidence) == Get(Best(env, Active(srcs)), Confidence))
  {
    hide Active, Best;
    assert !(AllHold(srcs, Approved) && AllHold(srcs, Rejected)) by {
      assert Get(srcs[0], Status) == Get(srcs[0], Status);
    }
  }

  lemma CascadeItemCloses(env: Env, st: Stamp, x: Item, srcs: seq<Item>)
    ensures Named(CascadeItem(env, st, x, srcs)) == Named(x)
    ensures Cascaded(env, x, CascadeItem(env, st, x, srcs), srcs)
  {
    hide Active, Best, CascadeItem, AllHold, Rank, Named;
    var y := CascadeItem(env, st, x, srcs);
    if CascadeOpen(x, srcs) {
      CascadeItemStatus(env, st, x, srcs);
      if z :| z in srcs && Get(z, Status) != State(Rejected) {
        ActiveMembers(srcs, z);
        BestWordHolds(env, srcs);
      }
    } else {
      CascadeItemClosed(env, st, x, srcs);
    }
  }

  lemma CascadeItemClosed(env: Env, st: Stamp, x: Item, srcs: seq<Item>)
    requires !CascadeOpen(x, srcs)
    ensures CascadeItem(env, st, x, srcs) == x
  {
  }

  /** After every commit, an IOC that no examiner has reviewed agrees with its known
      sources when they agree with each other, keeps its status when they do not, and
      carries the confidence of the first HIGH source that is not rejected, failing that of the
      first MEDIUM, then LOW one, and otherwise of the first. */
  lemma CascadeClosure(env: Env, st: Stamp, lay: Layout, items: map<ItemId, Item>, es: seq<Entry>, id: ItemId)
    requires WellFormed(lay, items) && id in lay.iocs
    requires Commit(env, st, lay, items, es).Some?
    requires Disjoint(Named(items[id]), lay.iocs)
    ensures var before := Reviewed(env, st, lay, items, es).items;
            var r := Commit(env, st, lay, items, es).value.items;
            Named(r[id]) == Named(items[id]) && Cascaded(env, before[id], r[id], Sources(r, r[id]))
  {
    hide Cascade, CascadeItem, Cascaded, CascadeRaises, Known, Reviewed, Couple, Direct;
    var w := Reviewed(env, st, lay, items, es);
    KeepsNamed(env, st, lay, items, es, id);
    IocsDistinct(lay);
    CascadeAt(env, st, w, lay.iocs, id);
    var x := w.items[id];
    CascadeItemCloses(env, st, x, Sources(w.items, x));
    var r := Commit(env, st, lay, items, es).value.items;
    SourcesNamed(r, x);
    SourcesNamed(r, r[id]);
    assert Sources(r, r[id]) == Sources(w.items, x);
  }

  lemma {:induction false} KnownMembers(items: map<ItemId, Item>, ids: seq<ItemId>)
    ensures forall s :: s in ids && s in items ==> items[s] in Known(items, ids)
    ensures forall x :: x in Known(items, ids) ==> exists s :: s in ids && s in items && items[s] == x
  {
    if ids != [] {
      var n := |ids| - 1;
      KnownMembers(items, ids[..n]);
      assert ids == ids[..n] + [ids[n]];
      forall x | x in Known(items, ids) ensures exists s :: s in ids && s in items && items[s] == x {
        if x in Known(items, ids[..n]) {
          var s :| s in ids[..n] && s in items && items[s] == x;
          assert s in ids;
        } else {
          assert ids[n] in ids && items[ids[n]] == x;
        }
      }
    }
  }

  /** How many of the ids are known. */
  function KnownCount(items: map<ItemId, Item>, ids: seq<ItemId>): nat {
    if ids == [] then 0 else KnownCount(items, ids[..|ids|-1]) + (if ids[|ids|-1] in items then 1 else 0)
  }

  /** The known sources stand in the order in which the IOC names them. */
  lemma {:induction false} KnownInOrder(items: map<ItemId, Item>, ids: seq<ItemId>, i: nat)
    requires i < |ids| && ids[i] in items
    ensures |Known(items, ids)| == KnownCount(items, ids)
    ensures KnownCount(items, ids[..i]) < |Known(items, ids)|
    ensures Known(items, ids)[KnownCount(items, ids[..i])] == items[ids[i]]
  {
    var n := |ids| - 1;
    KnownCounted(items, ids[..n]);
    if i < n {
      KnownInOrder(items, ids[..n], i);
      assert ids[..n][..i] == ids[..i];
    }
  }

  lemma {:induction false} KnownCounted(items: map<ItemId, Item>, ids: seq<ItemId>)
    ensures |Known(items, ids)| == KnownCount(items, ids)
  {
    if ids != [] { KnownCounted(items, ids[..|ids|-1]); }
  }

  /** A named source that is known, and whether it is rejected. */
  predicate KnownSource(r: map<ItemId, Item>, ids: seq<ItemId>, s: ItemId) {
    s in ids && s in r
  }

  predicate StandingSource(r: map<ItemId, Item>, ids: seq<ItemId>, s: ItemId) {
    KnownSource(r, ids, s) && Get(r[s], Status) != State(Rejected)
  }

  /** An item that goes with its named sources: approved or rejected with all of them, and of the
      best confidence word that one of them says and stands for. */
  ghost predicate GoesWith(env: Env, r: map<ItemId, Item>, ids: seq<ItemId>, x: Item) {
    && ((forall s :: KnownSource(r, ids, s) ==> Get(r[s], Status) == State(Approved)) ==>
          Get(x, Status) == State(Approved))
    && ((forall s :: KnownSource(r, ids, s) ==> Get(r[s], Status) == State(Rejected)) ==>
          Get(x, Status) == State(Rejected))
    && ((exists s :: StandingSource(r, ids, s) && Says(env, r[s], "HIGH")) ==> Says(env, x, "HIGH"))
    && ((exists s :: StandingSource(r, ids, s) && Says(env, r[s], "MEDIUM")) ==>
          Says(env, x, "HIGH") || Says(env, x, "MEDIUM"))
    && ((exists s :: StandingSource(r, ids, s) && Says(env, r[s], "LOW")) ==>
          Says(env, x, "HIGH") || Says(env, x, "MEDIUM") || Says(env, x, "LOW"))
    && (forall word :: Says(env, x, word) && (exists s :: StandingSource(r, ids, s)) ==>
          exists s :: StandingSource(r, ids, s) && Says(env, r[s], word))
  }

  /** The closure in terms of the ids an IOC names: every unreviewed IOC with a known source goes
      with its sources after a commit. */
  lemma CascadeClosureByIds(env: Env, st: Stamp, lay: Layout, items: map<ItemId, Item>, es: seq<Entry>, id: ItemId, ids: seq<ItemId>)
    requires WellFormed(lay, items) && id in lay.iocs
    requires Commit(env, st, lay, items, es).Some?
    requires Get(items[id], SourceFindings) == Ids(ids) && Disjoint(ids, lay.iocs)
    requires exists s :: KnownSource(items, ids, s)
    requires var r := Commit(env, st, lay, items, es).value.items; !Truthy(Get(r[id], ManuallyReviewed))
    ensures var r := Commit(env, st, lay, items, es).value.items; GoesWith(env, r, ids, r[id])
  {
    hide Commit, Known, Cascaded, Reviewed, GoesWith, Truthy;
    var r := Commit(env, st, lay, items, es).value.items;
    CascadeClosure(env, st, lay, items, es, id);
    SourcesNamed(r, r[id]);
    var k :| KnownSource(items, ids, k);
    assert KnownSource(r, ids, k);
    ClosedGoesWith(env, r, ids, Reviewed(env, st, lay, items, es).items[id], r[id]);
  }

  lemma ClosedGoesWith(env: Env, r: map<ItemId, Item>, ids: seq<ItemId>, before: Item, x: Item)
    requires Cascaded(env, before, x, Known(r, ids)) && !Truthy(Get(x, ManuallyReviewed))
    requires exists s :: KnownSource(r, ids, s)
    ensures GoesWith(env, r, ids, x)
  {
    hide Known, Cascaded, Says, Truthy;
    KnownMembers(r, ids);
    forall s | KnownSource(r, ids, s) ensures r[s] in Known(r, ids) {}
    var k :| KnownSource(r, ids, k);
    assert r[k] in Known(r, ids);
    ByMembers(env, before, x, Known(r, ids));
    ByIds(env, r, x, ids);
  }

  lemma ByIds(env: Env, r: map<ItemId, Item>, after: Item, ids: seq<ItemId>)
    requires forall s :: KnownSource(r, ids, s) ==> r[s] in Known(r, ids)
    requires forall x :: x in Known(r, ids) ==> exists s :: s in ids && s in r && r[s] == x
    requires forall word :: Says(env, after, word) && (exists y :: y in Known(r, ids) && Stands(y)) ==>
               exists y :: y in Known(r, ids) && Stands(y) && Says(env, y, word)
    ensures forall word :: Says(env, after, word) && (exists s :: StandingSource(r, ids, s)) ==>
              exists s :: StandingSource(r, ids, s) && Says(env, r[s], word)
  {
    hide Known, Says;
    forall word | Says(env, after, word) && (exists s :: StandingSource(r, ids, s))
      ensures exists s :: StandingSource(r, ids, s) && Says(env, r[s], word)
    {
      var s :| StandingSource(r, ids, s);
      assert r[s] in Known(r, ids);
      var y :| y in Known(r, ids) && Stands(y) && Says(env, y, word);
      var t :| t in ids && t in r && r[t] == y;
      assert StandingSource(r, ids, t);
    }
  }

  lemma ByMembers(env: Env, before: Item, after: Item, srcs: seq<Item>)
    requires Cascaded(env, before, after, srcs) && srcs != [] && !Truthy(Get(after, ManuallyReviewed))
    ensures (forall y :: y in srcs ==> Get(y, Status) == State(Approved)) ==> Get(after, Status) == State(Approved)
    ensures (forall y :: y in srcs ==> Get(y, Status) == State(Rejected)) ==> Get(after, Status) == State(Rejected)
    ensures forall y :: y in srcs && Stands(y) && Says(env, y, "HIGH") ==> Says(env, after, "HIGH")
    ensures forall y :: y in srcs && Stands(y) && Says(env, y, "MEDIUM") ==>
              Says(env, after, "HIGH") || Says(env, after, "MEDIUM")
    ensures forall y :: y in srcs && Stands(y) && Says(env, y, "LOW") ==>
              Says(env, after, "HIGH") || Says(env, after, "MEDIUM") || Says(env, after, "LOW")
    ensures forall word :: Says(env, after, word) && (exists y :: y in srcs && Stands(y)) ==>
              exists y :: y in srcs && Stands(y) && Says(env, y, word)
  {
    hide Says;
    SaysByConfidence(env);
    if z :| z in srcs && Stands(z) {
      assert BestWord(env, srcs, Get(after, Confidence));
      var i :| 0 <= i < |srcs| && Stands(srcs[i]) && Get(after, Confidence) == Get(srcs[i], Confidence);
      assert srcs[i] in srcs;
    }
  }

  lemma SaysByConfidence(env: Env)
    ensures forall x, y, word :: Get(x, Confidence) == Get(y, Confidence) ==> Says(env, x, word) == Says(env, y, word)
  {
  }

  lemma SourcesNamed(items: map<ItemId, Item>, x: Item)
    ensures Sources(items, x) == Known(items, Named(x))
  {
  }

  lemma IocsDistinct(lay: Layout)
    requires Distinct(lay.All())
    ensures Distinct(lay.iocs)
  {
    var n := |lay.findings + lay.timeline|;
    assert forall i :: 0 <= i < |lay.iocs| ==> lay.iocs[i] == lay.All()[n + i];
  }

  lemma KeepsNamed(env: Env, st: Stamp, lay: Layout, items: map<ItemId, Item>, es: seq<Entry>, id: ItemId)
    requires WellFormed(lay, items) && id in items
    ensures Get(Reviewed(env, st, lay, items, es).items[id], SourceFindings) == Get(items[id], SourceFindings)
    ensures Named(Reviewed(env, st, lay, items, es).items[id]) == Named(items[id])
  {
    var d := Direct(env, st, Loaded(items), Ordered(es));
    DirectKeys(env, st, Loaded(items), Ordered(es));
    DirectKeeps(env, st, Loaded(items), Ordered(es), id, SourceFindings);
    CoupleKeeps(env, st, d, lay.All(), id, SourceFindings);
  }

  lemma CoupleItemKeeps(env: Env, st: Stamp, x: Item, ss: Value, k: Key)
    requires Fixed(k)
    ensures Get(CoupleItem(env, st, x, ss), k) == Get(x, k)
  {
    hide CoupleItem;
    CoupleBooks(env, st, x, ss);
  }

  lemma {:induction false} CoupleKeeps(env: Env, st: Stamp, w: Work, ids: seq<ItemId>, id: ItemId, k: Key)
    requires forall i :: i in ids ==> i in w.items
    requires Fixed(k) && id in w.items
    ensures Get(Couple(env, st, w, ids).items[id], k) == Get(w.items[id], k)
  {
    hide CoupleItem, CoupleLog, SourceStatus;
    if ids != [] {
      CoupleKeeps(env, st, w, ids[..|ids|-1], id, k);
      var u := Couple(env, st, w, ids[..|ids|-1]);
      var x := u.items[ids[|ids|-1]];
      CoupleItemKeeps(env, st, x, SourceStatus(u.items, x), k);
    }
  }
}
