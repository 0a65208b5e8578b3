/** Committing a delta to items that an earlier attempt has rewritten in part leads to the
    same outcome as committing it once. */
module ReviewConvergence {
  import opened Options
  import opened ReviewModel
  import opened ReviewEngine
  import opened ReviewCoupling
  import opened ReviewReplay
  import opened ReviewIocs
  import V = ReviewVerification

  // ---- What the delta does to one item --------------------------------------

  function Acted(env: Env, st: Stamp, es: seq<Entry>, id: ItemId, x: Item): Item {
    if es == [] then x
    else
      var y := Acted(env, st, es[..|es|-1], id, x);
      if es[|es|-1].id == id then DirectItem(env, st, es[|es|-1], y) else y
  }

  lemma {:induction false} DirectAt(env: Env, st: Stamp, w: Work, es: seq<Entry>, id: ItemId)
    requires id in w.items
    ensures id in Direct(env, st, w, es).items
    ensures Direct(env, st, w, es).items[id] == Acted(env, st, es, id, w.items[id])
  {
    hide DirectItem, DirectRecord, Conflict, FirstConflict;
    if es != [] {
      DirectAt(env, st, w, es[..|es|-1], id);
      var u := Direct(env, st, w, es[..|es|-1]);
      if es[|es|-1].id == id { NotApplied(env, st, es[|es|-1], u.items[id]); }
    }
  }

  lemma NotApplied(env: Env, st: Stamp, e: Entry, x: Item)
    ensures !Applies(e, x) ==> DirectItem(env, st, e, x) == x
  {
  }

  /** The delta names no id twice. */
  predicate OnceNamed(es: seq<Entry>) {
    forall i, j :: 0 <= i < j < |es| ==> es[i].id != es[j].id
  }

  /** The decision that names the item. */
  function EntryOf(es: seq<Entry>, id: ItemId): (o: Option<Entry>)
    ensures o.Some? ==> o.value in es && o.value.id == id
    ensures o.None? ==> forall i :: 0 <= i < |es| ==> es[i].id != id
  {
    if es == [] then None
    else if es[|es|-1].id == id then Some(es[|es|-1])
    else EntryOf(es[..|es|-1], id)
  }

  lemma {:induction false} ActedOnce(env: Env, st: Stamp, es: seq<Entry>, id: ItemId, x: Item)
    requires OnceNamed(es)
    ensures Acted(env, st, es, id, x) == Decided(env, st, EntryOf(es, id), x)
  {
    hide DirectItem;
    if es != [] { ActedOnce(env, st, es[..|es|-1], id, x); }
  }

  lemma {:induction false} SelectMembers(es: seq<Entry>, a: Action, e: Entry)
    ensures e in Select(es, a) <==> e in es && e.action == a
  {
    if es != [] {
      SelectMembers(es[..|es|-1], a, e);
      assert es == es[..|es|-1] + [es[|es|-1]];
    }
  }

  lemma {:induction false} SelectOnce(es: seq<Entry>, a: Action)
    requires OnceNamed(es)
    ensures OnceNamed(Select(es, a))
  {
    if es != [] {
      var n := |es| - 1;
      SelectOnce(es[..n], a);
      forall e | e in Select(es[..n], a) ensures e.id != es[n].id { SelectMembers(es[..n], a, e); }
      var s := Select(es[..n], a);
      assert forall i :: 0 <= i < |s| ==> s[i] in s;
    }
  }

  lemma OnceJoined(a: seq<Entry>, b: seq<Entry>)
    requires OnceNamed(a) && OnceNamed(b)
    requires forall e, f :: e in a && f in b ==> e.id != f.id
    ensures OnceNamed(a + b)
  {
    forall i, j | 0 <= i < j < |a + b| ensures (a + b)[i].id != (a + b)[j].id {
      if i < |a| && |a| <= j { assert a[i] in a && b[j - |a|] in b; }
    }
  }

  lemma SelectApart(es: seq<Entry>, a: Action, b: Action)
    requires OnceNamed(es) && a != b
    ensures forall e, f :: e in Select(es, a) && f in Select(es, b) ==> e.id != f.id
  {
    forall e, f | e in Select(es, a) && f in Select(es, b) ensures e.id != f.id {
      SelectMembers(es, a, e);
      SelectMembers(es, b, f);
      var i :| 0 <= i < |es| && es[i] == e;
      var j :| 0 <= j < |es| && es[j] == f;
    }
  }

  lemma OrderedOnce(es: seq<Entry>)
    requires OnceNamed(es)
    ensures OnceNamed(Ordered(es))
    ensures forall e :: e in Ordered(es) ==> e in es
  {
    hide OnceNamed;
    var a, b, c := Select(es, Approve), Select(es, Edit), Select(es, Reject);
    SelectOnce(es, Approve);
    SelectOnce(es, Edit);
    SelectOnce(es, Reject);
    SelectApart(es, Approve, Edit);
    SelectApart(es, Approve, Reject);
    SelectApart(es, Edit, Reject);
    OnceJoined(a, b);
    OnceJoined(a + b, c);
    forall e | e in Ordered(es) ensures e in es {
      SelectMembers(es, Approve, e);
      SelectMembers(es, Edit, e);
      SelectMembers(es, Reject, e);
    }
  }

  // ---- One item, replayed ---------------------------------------------------

  /** What a commit makes of an item outside the IOC file, given its source's status. */
  function Outcome(env: Env, st: Stamp, es: seq<Entry>, id: ItemId, x: Item, ss: Value): Item {
    CoupleItem(env, st, Acted(env, st, es, id, x), ss)
  }

  ghost predicate ReplayableAll(es: seq<Entry>) {
    forall e :: e in es ==> ReplayableEntry(e)
  }

  /** Starting over from the item as it was, or as the first attempt left it, ends alike. */
  lemma OutcomeConverges(env: Env, st: Stamp, st': Stamp, es: seq<Entry>, id: ItemId, x: Item, x': Item, ss: Value)
    requires OnceNamed(es) && ReplayableAll(es) && !IsIocId(id)
    requires var y := Outcome(env, st, es, id, x, ss);
             Erase(x') == Erase(x) || Erase(x') == Erase(y)
    ensures Erase(Outcome(env, st', es, id, x', ss)) == Erase(Outcome(env, st, es, id, x, ss))
  {
    hide Erase, CoupleItem, DirectItem, Acted;
    var y := Outcome(env, st, es, id, x, ss);
    var o := EntryOf(es, id);
    ActedOnce(env, st, es, id, x);
    ActedOnce(env, st', es, id, x');
    if o.None? {
      CoupleTwice(env, st, st', x, ss);
      if Erase(x') == Erase(x) {
        CoupleRespects(env, st, st', x, x', ss);
      } else {
        CoupleRespects(env, st', st', x', y, ss);
      }
    } else {
      var e := o.value;
      var z := if Erase(x') == Erase(x) then x else y;
      ActedTwice(env, st, st', e, x, ss);
      DirectRespects(env, st', st', e, x', z);
      CoupleRespects(env, st', st', DirectItem(env, st', e, x'), DirectItem(env, st', e, z), ss);
      DirectRespects(env, st', st, e, x, x);
      CoupleRespects(env, st', st, DirectItem(env, st', e, x), DirectItem(env, st, e, x), ss);
    }
  }

  // ---- All items, replayed --------------------------------------------------

  /** Followers come after what they follow, and IOCs follow no one and name no IOC. */
  ghost predicate Standing(lay: Layout, items: map<ItemId, Item>) {
    && WellFormed(lay, items)
    && (forall id :: id in items && !IsIocId(id) ==> FollowsForward(lay, items, id))
    && (forall id :: id in items && IsIocId(id) ==>
          SourceOf(items[id]).None? && Disjoint(Named(items[id]), lay.iocs))
  }

  lemma CascadeItemKeeps(env: Env, st: Stamp, x: Item, srcs: seq<Item>, k: Key)
    requires Fixed(k)
    ensures Get(CascadeItem(env, st, x, srcs), k) == Get(x, k)
  {
    hide AllHold, Active, Best;
  }

  /** The state before the cascade, one item at a time. */
  lemma ReviewedAt(env: Env, st: Stamp, lay: Layout, items: map<ItemId, Item>, es: seq<Entry>, id: ItemId)
    requires Standing(lay, items) && id in items
    ensures var r := Reviewed(env, st, lay, items, es).items;
            r[id] == if IsIocId(id) then Acted(env, st, Ordered(es), id, items[id])
                     else Outcome(env, st, Ordered(es), id, items[id], SourceStatus(r, items[id]))
  {
    hide CoupleItem, Direct, Couple, Acted, SourceOf, Coupled, Named;
    var d := Direct(env, st, Loaded(items), Ordered(es));
    DirectKeys(env, st, Loaded(items), Ordered(es));
    forall i | i in items ensures SourceOf(d.items[i]) == SourceOf(items[i]) { SourceKept(env, st, items, es, i); }
    DirectAt(env, st, Loaded(items), Ordered(es), id);
    assert id in lay.All();
    if IsIocId(id) {
      NoSourceUncoupled(d.items[id]);
      CoupleFrame(env, st, d, lay.All(), id);
    } else {
      var i :| 0 <= i < |lay.All()| && lay.All()[i] == id;
      assert FollowsForward(lay, items, id);
      SettledForward(lay, items, d, i);
      CoupleAt(env, st, d, lay.All(), i);
    }
  }

  /** The delta can be replayed: it names no id twice and modifies only editable fields. */
  ghost predicate Replayable(es: seq<Entry>) {
    OnceNamed(es) && ReplayableAll(es)
  }

  lemma OrderedReplayable(es: seq<Entry>)
    requires Replayable(es)
    ensures Replayable(Ordered(es))
  {
    OrderedOnce(es);
  }

  /** Up to its stamps, a finding or timeline event ends as the first attempt leaves it. */
  lemma {:induction false} EventConverges(env: Env, st: Stamp, st': Stamp, lay: Layout, es: seq<Entry>,
                                          items: map<ItemId, Item>, m: map<ItemId, Item>, i: nat)
    requires Standing(lay, items) && Standing(lay, m) && Replayable(es)
    requires MixedEvents(env, st, lay, es, items, m)
    requires forall id :: id in items ==> SourceOf(m[id]) == SourceOf(items[id])
    requires i < |lay.All()| && !IsIocId(lay.All()[i])
    ensures lay.All()[i] in items
    ensures Erase(Reviewed(env, st', lay, m, es).items[lay.All()[i]]) ==
            Erase(Reviewed(env, st, lay, items, es).items[lay.All()[i]])
    decreases i, 1
  {
    hide Erase, Reviewed, Outcome, SourceOf, Acted, Ordered, Replayable, FollowsForward;
    var id := lay.All()[i];
    var r := Reviewed(env, st, lay, items, es).items;
    OrderedReplayable(es);
    ReviewedAt(env, st, lay, items, es, id);
    ReviewedAt(env, st', lay, m, es, id);
    SourceConverges(env, st, st', lay, es, items, m, i);
    Converges(env, st, st', Ordered(es), id, items[id], m[id], SourceStatus(r, items[id]));
  }

  lemma Converges(env: Env, st: Stamp, st': Stamp, es: seq<Entry>, id: ItemId, x: Item, x': Item, ss: Value)
    requires Replayable(es) && !IsIocId(id)
    requires Erase(x') == Erase(x) || Erase(x') == Erase(Outcome(env, st, es, id, x, ss))
    ensures Erase(Outcome(env, st', es, id, x', ss)) == Erase(Outcome(env, st, es, id, x, ss))
  {
    hide Erase, Outcome, OnceNamed, ReplayableAll;
    OutcomeConverges(env, st, st', es, id, x, x', ss);
  }

  /** Where a followed item that follows another stands. */
  lemma SourceIndex(lay: Layout, items: map<ItemId, Item>, i: nat) returns (a: nat)
    requires WellFormed(lay, items) && i < |lay.All()| && lay.All()[i] in items
    requires FollowsForward(lay, items, lay.All()[i])
    requires var s := SourceOf(items[lay.All()[i]]); s.Some? && s.value in items
    ensures var s := SourceOf(items[lay.All()[i]]).value;
            !IsIocId(s) && (SourceOf(items[s]).Some? ==> a < i && lay.All()[a] == s)
  {
    hide SourceOf;
    var all := lay.All();
    var s := SourceOf(items[all[i]]).value;
    a := 0;
    if SourceOf(items[s]).Some? {
      var j, k :| 0 <= j < k < |all| && all[j] == s && all[k] == all[i];
      a := j;
    }
  }

  /** Its source ends with the same status. */
  lemma {:induction false} SourceConverges(env: Env, st: Stamp, st': Stamp, lay: Layout, es: seq<Entry>,
                                           items: map<ItemId, Item>, m: map<ItemId, Item>, i: nat)
    requires Standing(lay, items) && Standing(lay, m) && Replayable(es)
    requires MixedEvents(env, st, lay, es, items, m)
    requires forall id :: id in items ==> SourceOf(m[id]) == SourceOf(items[id])
    requires i < |lay.All()| && !IsIocId(lay.All()[i]) && lay.All()[i] in items
    ensures SourceStatus(Reviewed(env, st', lay, m, es).items, m[lay.All()[i]]) ==
            SourceStatus(Reviewed(env, st, lay, items, es).items, items[lay.All()[i]])
    decreases i, 0
  {
    hide Erase, Reviewed, SourceOf, Replayable, MixedEvents, FollowsForward;
    var id := lay.All()[i];
    var r, r' := Reviewed(env, st, lay, items, es).items, Reviewed(env, st', lay, m, es).items;
    var s := SourceOf(items[id]);
    if s.Some? && s.value in items {
      var a := SourceIndex(lay, items, i);
      if SourceOf(items[s.value]).Some? {
        EventConverges(env, st, st', lay, es, items, m, a);
      } else {
        RootConverges(env, st, st', lay, es, items, m, s.value);
      }
      CoupledRespects(r[s.value], r'[s.value]);
    }
  }

  /** Each finding and timeline event as it was, or as the first attempt leaves it. */
  ghost predicate MixedEvents(env: Env, st: Stamp, lay: Layout, es: seq<Entry>,
                              items: map<ItemId, Item>, m: map<ItemId, Item>)
    requires WellFormed(lay, items)
  {
    var r := Reviewed(env, st, lay, items, es).items;
    && m.Keys == items.Keys
    && forall id :: id in items && !IsIocId(id) ==> Erase(m[id]) == Erase(items[id]) || Erase(m[id]) == Erase(r[id])
  }

  /** An item that follows nothing does not depend on any other. */
  lemma RootConverges(env: Env, st: Stamp, st': Stamp, lay: Layout, es: seq<Entry>,
                      items: map<ItemId, Item>, m: map<ItemId, Item>, id: ItemId)
    requires Standing(lay, items) && Standing(lay, m) && Replayable(es)
    requires MixedEvents(env, st, lay, es, items, m)
    requires id in items && !IsIocId(id)
    requires SourceOf(items[id]).None? && SourceOf(m[id]).None?
    ensures Erase(Reviewed(env, st', lay, m, es).items[id]) == Erase(Reviewed(env, st, lay, items, es).items[id])
  {
    hide Erase, Reviewed, Outcome, SourceOf, Acted, Ordered;
    OrderedReplayable(es);
    ReviewedAt(env, st, lay, items, es, id);
    ReviewedAt(env, st', lay, m, es, id);
    OutcomeConverges(env, st, st', Ordered(es), id, items[id], m[id], Null);
  }

  lemma {:induction false} KnownConverges(a: map<ItemId, Item>, b: map<ItemId, Item>, ids: seq<ItemId>)
    requires a.Keys == b.Keys
    requires forall id :: id in ids && id in a ==> Erase(a[id]) == Erase(b[id])
    ensures SameSources(Known(a, ids), Known(b, ids))
  {
    hide Erase;
    if ids != [] { KnownConverges(a, b, ids[..|ids|-1]); }
  }

  /** The cascade raises only when some IOC makes it raise. */
  lemma {:induction false} CascadeSucceeds(env: Env, st: Stamp, w: Work, ids: seq<ItemId>)
    requires Distinct(ids) && (forall id :: id in ids ==> id in w.items)
    requires forall id :: id in ids ==>
               Disjoint(Named(w.items[id]), ids) && !CascadeRaises(env, w.items[id], Sources(w.items, w.items[id]))
    ensures Cascade(env, st, w, ids).Some?
  {
    hide CascadeItem, CascadeRaises, CascadeLog, CascadeApproves, CascadeRejects, CascadeRanks, Known, Named;
    if ids != [] {
      var n := |ids| - 1;
      var id := ids[n];
      assert forall i :: i in ids[..n] ==> i in ids;
      CascadeSucceeds(env, st, w, ids[..n]);
      var u := Cascade(env, st, w, ids[..n]).value;
      CascadeFrame(env, st, w, ids[..n], id);
      var x := w.items[id];
      forall s | s in Named(x) && s in w.items ensures u.items[s] == w.items[s] {
        CascadeFrame(env, st, w, ids[..n], s);
      }
      KnownAgree(w.items, u.items, Named(x));
      SourcesNamed(w.items, x);
      SourcesNamed(u.items, x);
    }
  }

  // ---- The IOC file is saved whenever it changed ----------------------------

  lemma {:induction false} CascadeFlags(env: Env, st: Stamp, w: Work, ids: seq<ItemId>)
    requires forall id :: id in ids ==> id in w.items
    requires Cascade(env, st, w, ids).Some? && !Cascade(env, st, w, ids).value.iocsModified
    ensures Cascade(env, st, w, ids).value.items == w.items
  {
    hide CascadeRaises, Sources, CascadeApproves, CascadeRejects, CascadeRanks, CascadeLog;
    if ids != [] {
      CascadeFlags(env, st, w, ids[..|ids|-1]);
      var x := w.items[ids[|ids|-1]];
      assert w.items[ids[|ids|-1] := x] == w.items;
    }
  }

  /** Skipping the save of the IOC file loses nothing. */
  lemma SkippedSaveLosesNothing(env: Env, st: Stamp, lay: Layout, items: map<ItemId, Item>, es: seq<Entry>, id: ItemId)
    requires WellFormed(lay, items) && id in lay.iocs
    requires Commit(env, st, lay, items, es).Some?
    requires !SavesIocs(lay, Commit(env, st, lay, items, es).value)
    ensures Commit(env, st, lay, items, es).value.items[id] == items[id]
  {
    hide Direct, Couple, Cascade;
    var d := Direct(env, st, Loaded(items), Ordered(es));
    var w := Reviewed(env, st, lay, items, es);
    var u := Commit(env, st, lay, items, es).value;
    DirectKeys(env, st, Loaded(items), Ordered(es));
    V.DirectLogs(env, st, Loaded(items), Ordered(es), items);
    V.CoupleLogs(env, st, d, lay.All(), items);
    CascadeFlags(env, st, w, lay.iocs);
    V.CascadeKeepsLog(env, st, w, lay.iocs);
    assert forall i :: 0 <= i < |w.log| ==> u.log[i] == w.log[i];
  }

  // ---- One commit, planned and repeated -------------------------------------

  /** A commit as it would go uninterrupted: by whom, on which case, with which delta. */
  datatype Plan = Plan(env: Env, st: Stamp, lay: Layout, items: map<ItemId, Item>, es: seq<Entry>)

  ghost predicate Sound(p: Plan) {
    && Standing(p.lay, p.items) && Replayable(p.es)
    && Commit(p.env, p.st, p.lay, p.items, p.es).Some?
  }

  ghost function Before(p: Plan): (r: map<ItemId, Item>)
    requires WellFormed(p.lay, p.items)
    ensures r.Keys == p.items.Keys
  {
    Reviewed(p.env, p.st, p.lay, p.items, p.es).items
  }

  /** The sources of an IOC as the cascade of the commit finds them. */
  ghost function SourcesFor(p: Plan, id: ItemId): seq<Item>
    requires WellFormed(p.lay, p.items) && id in p.items
  {
    Sources(Before(p), p.items[id])
  }

  /** What n commits make of one item, taken by itself. */
  ghost function Stage(p: Plan, id: ItemId, n: nat): Item
    requires WellFormed(p.lay, p.items) && id in p.items
  {
    if IsIocId(id) then Nth(p.env, p.st, EntryOf(Ordered(p.es), id), p.items[id], SourcesFor(p, id), n)
    else if n == 0 then p.items[id]
    else Before(p)[id]
  }

  /** The item stands, up to stamps and notes, where n or more commits leave it. */
  ghost predicate Ahead(p: Plan, id: ItemId, x: Item, n: nat)
    requires WellFormed(p.lay, p.items) && id in p.items
  {
    exists k: nat :: k >= n && Erase(x) == Erase(Stage(p, id, k))
  }

  /** Each item where some number of commits leaves it, the number differing between items. */
  ghost predicate Mixed(p: Plan, m: map<ItemId, Item>)
    requires WellFormed(p.lay, p.items)
  {
    m.Keys == p.items.Keys && forall id :: id in p.items ==> Ahead(p, id, m[id], 0)
  }

  lemma {:induction false} NthKeeps(env: Env, st: Stamp, o: Option<Entry>, x: Item, a: seq<Item>, n: nat, k: Key)
    requires Fixed(k)
    ensures Get(Nth(env, st, o, x, a, n), k) == Get(x, k)
  {
    hide DirectItem, CascadeItem;
    if n > 0 {
      var y := Nth(env, st, o, x, a, n - 1);
      NthKeeps(env, st, o, x, a, n - 1, k);
      if o.Some? { DirectItemKeeps(env, st, o.value, y, k); }
      CascadeItemKeeps(env, st, Decided(env, st, o, y), a, k);
    }
  }

  lemma ReviewedKeeps(env: Env, st: Stamp, lay: Layout, items: map<ItemId, Item>, es: seq<Entry>, id: ItemId, k: Key)
    requires WellFormed(lay, items) && id in items && Fixed(k)
    ensures Get(Reviewed(env, st, lay, items, es).items[id], k) == Get(items[id], k)
  {
    hide Direct, Couple;
    DirectKeys(env, st, Loaded(items), Ordered(es));
    DirectKeeps(env, st, Loaded(items), Ordered(es), id, k);
    CoupleKeeps(env, st, Direct(env, st, Loaded(items), Ordered(es)), lay.All(), id, k);
  }

  /** No number of commits changes what an item follows or names. */
  lemma StageLinks(p: Plan, id: ItemId, n: nat, x: Item)
    requires WellFormed(p.lay, p.items) && id in p.items && Erase(x) == Erase(Stage(p, id, n))
    ensures SourceOf(x) == SourceOf(p.items[id]) && Named(x) == Named(p.items[id])
  {
    hide Erase, Nth, Reviewed, Known;
    var y := Stage(p, id, n);
    forall k | k == AutoCreatedFrom || k == SourceFindings ensures Get(x, k) == Get(p.items[id], k) {
      EraseGet(x, y, k);
      if IsIocId(id) {
        NthKeeps(p.env, p.st, EntryOf(Ordered(p.es), id), p.items[id], SourcesFor(p, id), n, k);
      } else {
        ReviewedKeeps(p.env, p.st, p.lay, p.items, p.es, id, k);
      }
    }
  }

  lemma MixedStanding(p: Plan, m: map<ItemId, Item>)
    requires Standing(p.lay, p.items) && Mixed(p, m)
    ensures Standing(p.lay, m)
    ensures forall id :: id in p.items ==> SourceOf(m[id]) == SourceOf(p.items[id]) && Named(m[id]) == Named(p.items[id])
  {
    hide SourceOf, Named, Erase, Stage;
    forall id | id in p.items ensures SourceOf(m[id]) == SourceOf(p.items[id]) && Named(m[id]) == Named(p.items[id]) {
      var k: nat :| Erase(m[id]) == Erase(Stage(p, id, k));
      StageLinks(p, id, k, m[id]);
    }
    forall id | id in p.items && !IsIocId(id) ensures FollowsForward(p.lay, m, id) {
      assert FollowsForward(p.lay, p.items, id);
    }
  }

  /** Findings and timeline events: a replay from any mixture leaves what the first commit does. */
  lemma EventsReplayed(p: Plan, st': Stamp, m: map<ItemId, Item>)
    requires Sound(p) && Mixed(p, m)
    ensures Standing(p.lay, m)
    ensures forall id :: id in p.items ==> Named(m[id]) == Named(p.items[id])
    ensures forall id :: id in p.items && !IsIocId(id) ==>
              Erase(Reviewed(p.env, st', p.lay, m, p.es).items[id]) == Erase(Before(p)[id])
  {
    hide Erase, Reviewed, Commit, SourceOf, Named, FollowsForward, Replayable, Nth, Known;
    MixedStanding(p, m);
    forall id | id in p.items && !IsIocId(id)
      ensures Erase(m[id]) == Erase(p.items[id]) || Erase(m[id]) == Erase(Before(p)[id])
    {
      assert Ahead(p, id, m[id], 0);
    }
    forall id | id in p.items && !IsIocId(id)
      ensures Erase(Reviewed(p.env, st', p.lay, m, p.es).items[id]) == Erase(Before(p)[id])
    {
      assert id in p.lay.All();
      var i :| 0 <= i < |p.lay.All()| && p.lay.All()[i] == id;
      EventConverges(p.env, p.st, st', p.lay, p.es, p.items, m, i);
    }
  }

  lemma DecidingReplayable(p: Plan, id: ItemId)
    requires Replayable(p.es) && IsIocId(id)
    ensures ReplayableOption(EntryOf(Ordered(p.es), id)) && OnceNamed(Ordered(p.es))
  {
    hide Ordered, ReplayableEntry;
    OrderedReplayable(p.es);
  }

  /** The first commit raises on no IOC. */
  lemma FirstIsSafe(p: Plan, id: ItemId)
    requires Sound(p) && id in p.lay.iocs
    ensures id in p.items && IsIocId(id)
    ensures Before(p)[id] == Decided(p.env, p.st, EntryOf(Ordered(p.es), id), p.items[id])
    ensures !CascadeRaises(p.env, Before(p)[id], SourcesFor(p, id))
  {
    hide Reviewed, Cascade, CascadeItem, CascadeRaises, Acted, Ordered, Known, Named, FollowsForward, Decided;
    IocsDistinct(p.lay);
    KeepsNamed(p.env, p.st, p.lay, p.items, p.es, id);
    CascadeAt(p.env, p.st, Reviewed(p.env, p.st, p.lay, p.items, p.es), p.lay.iocs, id);
    ReviewedAt(p.env, p.st, p.lay, p.items, p.es, id);
    DecidingReplayable(p, id);
    ActedOnce(p.env, p.st, Ordered(p.es), id, p.items[id]);
    SourcesNamed(Before(p), Before(p)[id]);
    SourcesNamed(Before(p), p.items[id]);
  }

  /** One IOC: the replay does not raise on it and takes it one stage further. */
  lemma IocReplayed(p: Plan, st': Stamp, m: map<ItemId, Item>, id: ItemId, n: nat)
    requires Sound(p) && Standing(p.lay, m) && id in p.lay.iocs
    requires m.Keys == p.items.Keys && Named(m[id]) == Named(p.items[id])
    requires Erase(m[id]) == Erase(Stage(p, id, n))
    requires forall i :: i in p.items && !IsIocId(i) ==>
               Erase(Reviewed(p.env, st', p.lay, m, p.es).items[i]) == Erase(Before(p)[i])
    ensures var r := Reviewed(p.env, st', p.lay, m, p.es).items;
            && Disjoint(Named(r[id]), p.lay.iocs)
            && !CascadeRaises(p.env, r[id], Sources(r, r[id]))
            && Erase(CascadeItem(p.env, st', r[id], Sources(r, r[id]))) == Erase(Stage(p, id, n + 1))
  {
    hide Erase, Reviewed, Cascade, CascadeItem, CascadeRaises, Acted, Ordered, Known, Named, FollowsForward, Decided;
    var r := Reviewed(p.env, st', p.lay, m, p.es).items;
    var o := EntryOf(Ordered(p.es), id);
    FirstIsSafe(p, id);
    KeepsNamed(p.env, st', p.lay, m, p.es, id);
    ReviewedAt(p.env, st', p.lay, m, p.es, id);
    DecidingReplayable(p, id);
    ActedOnce(p.env, st', Ordered(p.es), id, m[id]);
    SourcesNamed(Before(p), p.items[id]);
    SourcesNamed(r, r[id]);
    forall s | s in Named(p.items[id]) && s in Before(p) ensures Erase(Before(p)[s]) == Erase(r[s]) {
      assert !IsIocId(s);
    }
    KnownConverges(Before(p), r, Named(p.items[id]));
    var a, b := SourcesFor(p, id), Sources(r, r[id]);
    NthIsSafe(p.env, p.st, o, p.items[id], a, n);
    NextRespects(p.env, p.st, st', o, Stage(p, id, n), m[id], a, b);
  }

  /** Committing the delta once more, under any stamp and from any mixture of stages, succeeds
      and takes every item one stage further. */
  lemma ReplayAdvances(p: Plan, st': Stamp, m: map<ItemId, Item>)
    requires Sound(p) && Mixed(p, m)
    ensures WellFormed(p.lay, m) && Commit(p.env, st', p.lay, m, p.es).Some?
    ensures forall id, n: nat {:trigger Stage(p, id, n)} :: id in p.items && Erase(m[id]) == Erase(Stage(p, id, n)) ==>
              Erase(Commit(p.env, st', p.lay, m, p.es).value.items[id]) == Erase(Stage(p, id, n + 1))
  {
    hide Erase, Reviewed, Cascade, CascadeItem, CascadeRaises, Known, Named, Replayable, FollowsForward, SourceOf, Stage;
    EventsReplayed(p, st', m);
    var w := Reviewed(p.env, st', p.lay, m, p.es);
    IocsDistinct(p.lay);
    forall id | id in p.lay.iocs
      ensures Disjoint(Named(w.items[id]), p.lay.iocs)
      ensures !CascadeRaises(p.env, w.items[id], Sources(w.items, w.items[id]))
    {
      var n: nat :| Erase(m[id]) == Erase(Stage(p, id, n));
      IocReplayed(p, st', m, id, n);
    }
    CascadeSucceeds(p.env, st', w, p.lay.iocs);
    forall id, n: nat | id in p.items && Erase(m[id]) == Erase(Stage(p, id, n))
      ensures Erase(Commit(p.env, st', p.lay, m, p.es).value.items[id]) == Erase(Stage(p, id, n + 1))
    {
      if IsIocId(id) {
        CascadeAt(p.env, st', w, p.lay.iocs, id);
        IocReplayed(p, st', m, id, n);
      } else {
        AfterCascade(p.env, st', p.lay, m, p.es, id);
        EventStage(p, id, n + 1);
      }
    }
  }

  lemma EventStage(p: Plan, id: ItemId, n: nat)
    requires WellFormed(p.lay, p.items) && id in p.items && !IsIocId(id) && n > 0
    ensures Stage(p, id, n) == Before(p)[id]
  {
  }

  // ---- Commit after commit --------------------------------------------------

  /** The case after n complete commits of the delta; one that raises changes nothing. */
  ghost function Commits(p: Plan, n: nat): (r: map<ItemId, Item>)
    requires WellFormed(p.lay, p.items)
    ensures r.Keys == p.items.Keys
  {
    if n == 0 then p.items
    else
      var before := Commits(p, n - 1);
      match Commit(p.env, p.st, p.lay, before, p.es)
      case None => before
      case Some(w) => w.items
  }

  /** The stages are what complete commits make of the case. */
  lemma {:induction false} CommitsAreStages(p: Plan, n: nat)
    requires Sound(p)
    ensures forall id :: id in p.items ==> Erase(Commits(p, n)[id]) == Erase(Stage(p, id, n))
  {
    hide Erase, Commit, Replayable, Standing, WellFormed, Stage;
    StandingDistinct(p.lay, p.items);
    if n == 0 {
      forall id | id in p.items ensures Stage(p, id, 0) == p.items[id] { StageZero(p, id); }
    } else {
      CommitsAreStages(p, n - 1);
      var m := Commits(p, n - 1);
      forall id | id in p.items ensures Ahead(p, id, m[id], 0) {
        assert Erase(m[id]) == Erase(Stage(p, id, n - 1));
      }
      ReplayAdvances(p, p.st, m);
    }
  }

  lemma StageZero(p: Plan, id: ItemId)
    requires WellFormed(p.lay, p.items) && id in p.items
    ensures Stage(p, id, 0) == p.items[id]
  {
  }

  // ---- Where the stages meet ------------------------------------------------

  /** Every decision on the item, if it is an IOC, leaves it the second time as the first. */
  ghost predicate Converging(p: Plan, id: ItemId)
    requires WellFormed(p.lay, p.items) && id in p.items
  {
    IsIocId(id) ==>
      forall e :: e in p.es && e.id == id ==> Repeats(p.env, e, p.items[id], SourcesFor(p, id))
  }

  /** A decision on the IOC is skipped by the first commit and unblocked by its cascade. */
  ghost predicate Revived(p: Plan, id: ItemId)
    requires WellFormed(p.lay, p.items) && id in p.items
  {
    IsIocId(id) && exists e :: e in p.es && e.id == id && Unblocked(p.env, e, p.items[id], SourcesFor(p, id))
  }

  lemma OnlyOne(es: seq<Entry>, e: Entry, f: Entry)
    requires OnceNamed(es) && e in es && f in es && e.id == f.id
    ensures e == f
  {
    var i :| 0 <= i < |es| && es[i] == e;
    var j :| 0 <= j < |es| && es[j] == f;
  }

  /** The decision that names an item is found in the order the commit works in. */
  lemma EntryInOrder(es: seq<Entry>, e: Entry)
    requires OnceNamed(es) && e in es
    ensures EntryOf(Ordered(es), e.id) == if e.action.UnknownAction? then None else Some(e)
  {
    hide OnceNamed;
    OrderedOnce(es);
    var o := EntryOf(Ordered(es), e.id);
    forall a ensures e in Select(es, a) <==> e.action == a { SelectMembers(es, a, e); }
    if o.Some? { OnlyOne(es, e, o.value); }
    if !e.action.UnknownAction? {
      assert e in Ordered(es);
      var i :| 0 <= i < |Ordered(es)| && Ordered(es)[i] == e;
    }
  }

  lemma StageConverges(p: Plan, id: ItemId, n: nat)
    requires Sound(p) && id in p.items && n >= 1
    ensures Converging(p, id) ==> Erase(Stage(p, id, n)) == Erase(Stage(p, id, 1))
    ensures !Revived(p, id) ==> Rough(Stage(p, id, n)) == Rough(Stage(p, id, 1))
    ensures n >= 3 ==> Erase(Stage(p, id, n)) == Erase(Stage(p, id, 3))
  {
    hide Erase, Commit, Standing, Replayable, Reviewed, Sources, Nth, Repeats, Unblocked, Ordered, ReplayableEntry;
    StandingDistinct(p.lay, p.items);
    if IsIocId(id) {
      var o := EntryOf(Ordered(p.es), id);
      var x, a := p.items[id], SourcesFor(p, id);
      DecidingReplayable(p, id);
      if n >= 3 { NthRests(p.env, p.st, o, x, a, n); }
      if o.Some? {
        EntryFrom(p.es, o.value);
        NthRough(p.env, p.st, o.value, x, a, n);
        if Converging(p, id) { NthStays(p.env, p.st, o, x, a, n); }
      } else {
        NthStays(p.env, p.st, o, x, a, n);
      }
    }
  }

  lemma EntryFrom(es: seq<Entry>, e: Entry)
    requires Replayable(es) && e in Ordered(es)
    ensures e in es
  {
    OrderedOnce(es);
  }

  lemma StandingDistinct(lay: Layout, items: map<ItemId, Item>)
    requires Standing(lay, items)
    ensures WellFormed(lay, items) && Distinct(lay.All())
  {
  }

  /** However often a delta is committed: findings, timeline events and every item that
      converges end as after the first commit, up to stamps and notes; an IOC that is not
      revived does so up to its stored hash; and after three commits nothing moves. */
  lemma ReplayConverges(p: Plan, id: ItemId, n: nat)
    requires Sound(p) && id in p.items && n >= 1
    ensures Converging(p, id) ==> Erase(Commits(p, n)[id]) == Erase(Commits(p, 1)[id])
    ensures !Revived(p, id) ==> Rough(Commits(p, n)[id]) == Rough(Commits(p, 1)[id])
    ensures n >= 3 ==> Erase(Commits(p, n)[id]) == Erase(Commits(p, 3)[id])
  {
    hide Erase, Commits, Stage, Converging, Revived;
    CommitsAreStages(p, 1);
    CommitsAreStages(p, 3);
    CommitsAreStages(p, n);
    StageConverges(p, id, n);
  }

  /** The condition is exact: a second commit leaves a decided IOC as the first did if and only
      if its decision repeats. */
  lemma ConvergesExactly(p: Plan, e: Entry)
    requires Sound(p) && Injective(p.env) && e in p.es && e.id in p.items && IsIocId(e.id)
    ensures Erase(Commits(p, 2)[e.id]) == Erase(Commits(p, 1)[e.id]) <==>
            Repeats(p.env, e, p.items[e.id], SourcesFor(p, e.id))
  {
    hide Erase, Commits, Commit, Standing, Reviewed, Sources, Next, Repeats, Unblocked, Ordered, ReplayableEntry, Injective;
    StandingDistinct(p.lay, p.items);
    var x, a := p.items[e.id], SourcesFor(p, e.id);
    CommitsAreStages(p, 1);
    CommitsAreStages(p, 2);
    EntryInOrder(p.es, e);
    DecidingReplayable(p, e.id);
    ThreeTimes(p.env, p.st, EntryOf(Ordered(p.es), e.id), x, a);
    if e.action.UnknownAction? {
      NthStays(p.env, p.st, None, x, a, 2);
      UnknownRepeats(p.env, e, x, a);
    } else {
      RepeatsExactly(p.env, p.st, e, x, a);
    }
  }

  lemma UnknownRepeats(env: Env, e: Entry, x: Item, a: seq<Item>)
    requires e.action.UnknownAction?
    ensures Repeats(env, e, x, a)
  {
  }

  // ---- An approval that only a replay makes ---------------------------------

  lemma ShowsInRough(x: Item, y: Item)
    ensures Erase(x) == Erase(y) ==> Rough(x) == Rough(y)
  {
  }

  /** An approval skipped by the first commit and unblocked by its cascade is made by the next. */
  lemma RevivedApprovalShows(p: Plan, e: Entry)
    requires Sound(p) && e in p.es && e.id in p.items && IsIocId(e.id) && e.action.Approve?
    requires Unblocked(p.env, e, p.items[e.id], SourcesFor(p, e.id))
    ensures Rough(Commits(p, 2)[e.id]) != Rough(Commits(p, 1)[e.id])
    ensures Get(Commits(p, 2)[e.id], Status) == State(Approved)
  {
    hide Erase, Commits, Commit, Standing, Reviewed, Sources, Next, Unblocked, Ordered, ReplayableEntry, Rough;
    StandingDistinct(p.lay, p.items);
    var x, a := p.items[e.id], SourcesFor(p, e.id);
    CommitsAreStages(p, 1);
    CommitsAreStages(p, 2);
    EntryInOrder(p.es, e);
    DecidingReplayable(p, e.id);
    ThreeTimes(p.env, p.st, Some(e), x, a);
    UnblockedApproval(p.env, p.st, e, x, a);
    ShowsInRough(Commits(p, 1)[e.id], Stage(p, e.id, 1));
    ShowsInRough(Commits(p, 2)[e.id], Stage(p, e.id, 2));
    EraseGet(Commits(p, 2)[e.id], Stage(p, e.id, 2), Status);
  }
}
