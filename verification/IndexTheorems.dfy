/** What every refresh keeps, and exactly when the index it leaves is the one a rebuild from
    the current files would produce. */
module IndexTheorems {
  import opened RecordIds
  import opened IndexRefresh

  // ---- Whose record is whose ------------------------------------------------

  /** A document's pieces carry different numbers. */
  ghost predicate Numbered(env: Env) {
    forall r, c, i, j :: 0 <= i < j < |env.pieces(r, c)| ==> env.pieces(r, c)[i].number != env.pieces(r, c)[j].number
  }

  /** Equal hashes mean equal contents. */
  ghost predicate Injective(env: Env) {
    forall a, b :: env.hash(a) == env.hash(b) ==> a == b
  }

  predicate IsUser(id: string) {
    USER + "_" <= id
  }

  ghost predicate DistinctStems(env: Env, rs: set<Rel>) {
    forall r, q :: r in rs && q in rs && SafeStem(env, r) == SafeStem(env, q) ==> r == q
  }

  lemma RecordOf(env: Env, r: Rel, c: string, x: Record) returns (k: nat)
    requires x in Records(env, r, c)
    ensures k < |env.pieces(r, c)| && x == Records(env, r, c)[k]
    ensures x == Record(RecordId(USER, SafeStem(env, r), env.pieces(r, c)[k].number), env.pieces(r, c)[k].payload)
    ensures IsUser(x.id)
  {
    hide RecordId, Sanitize;
    var rs := Records(env, r, c);
    k :| 0 <= k < |rs| && rs[k] == x;
    UserId(SafeStem(env, r), env.pieces(r, c)[k].number);
  }

  lemma UserId(stem: string, n: nat)
    ensures IsUser(RecordId(USER, stem, n))
  {
    var id := RecordId(USER, stem, n);
    assert id == (USER + "_") + (stem + "_" + Decimal(n));
  }

  /** An id tells its file's stem, and within one document its record. */
  lemma SameIdSameStem(env: Env, r: Rel, c: string, q: Rel, d: string, x: Record, y: Record)
    requires x in Records(env, r, c) && y in Records(env, q, d) && x.id == y.id
    ensures SafeStem(env, r) == SafeStem(env, q)
    ensures Numbered(env) && r == q && c == d ==> x == y
  {
    hide RecordId, Sanitize, Records;
    var i := RecordOf(env, r, c, x);
    var j := RecordOf(env, q, d, y);
    RecordIdInjective(USER, SafeStem(env, r), env.pieces(r, c)[i].number, SafeStem(env, q), env.pieces(q, d)[j].number);
  }

  // ---- Index and files ------------------------------------------------------

  /** Some file of `live` holds the record. */
  ghost predicate Held(env: Env, live: map<Rel, string>, x: Record) {
    exists r :: r in live && x in Records(env, r, live[r])
  }

  /** The user part of the index is exactly the records of the files. */
  ghost predicate Agree(env: Env, index: map<string, string>, live: map<Rel, string>) {
    forall id, p :: IsUser(id) ==> ((id in index && index[id] == p) <==> Held(env, live, Record(id, p)))
  }

  ghost predicate SameRest(a: map<string, string>, b: map<string, string>) {
    forall id :: !IsUser(id) ==> (id in a <==> id in b) && (id in a && id in b ==> a[id] == b[id])
  }

  /** The ids belong to the file's stem. */
  ghost predicate OfStem(env: Env, r: Rel, ids: seq<string>) {
    forall id :: id in ids ==> exists n: nat :: id == RecordId(USER, SafeStem(env, r), n)
  }

  lemma IdsOfStem(env: Env, r: Rel, c: string)
    ensures OfStem(env, r, IdsOf(Records(env, r, c)))
  {
    hide RecordId, Sanitize;
    var rs := Records(env, r, c);
    forall id | id in IdsOf(rs) ensures exists n: nat :: id == RecordId(USER, SafeStem(env, r), n) {
      var k :| 0 <= k < |rs| && IdsOf(rs)[k] == id;
      assert id == RecordId(USER, SafeStem(env, r), env.pieces(r, c)[k].number);
    }
  }

  lemma StemOfHeld(env: Env, r: Rel, ids: seq<string>, q: Rel, d: string, y: Record)
    requires OfStem(env, r, ids) && y in Records(env, q, d) && y.id in ids
    ensures SafeStem(env, r) == SafeStem(env, q) && IsUser(y.id)
  {
    hide RecordId, Sanitize, Records;
    var n: nat :| y.id == RecordId(USER, SafeStem(env, r), n);
    var j := RecordOf(env, q, d, y);
    RecordIdInjective(USER, SafeStem(env, r), n, SafeStem(env, q), env.pieces(q, d)[j].number);
  }

  /** Deleting a file's ids forgets that file and no other. */
  lemma WithoutAgrees(env: Env, index: map<string, string>, live: map<Rel, string>, r: Rel, ids: seq<string>)
    requires Agree(env, index, live) && DistinctStems(env, live.Keys) && r in live
    requires OfStem(env, r, ids)
    requires forall x :: x in Records(env, r, live[r]) ==> x.id in ids
    ensures Agree(env, Without(index, ids), live - {r})
    ensures SameRest(index, Without(index, ids))
  {
    hide RecordId, Sanitize, Records, OfStem;
    var m := Without(index, ids);
    forall id, p | IsUser(id)
      ensures (id in m && m[id] == p) <==> Held(env, live - {r}, Record(id, p))
    {
      var x := Record(id, p);
      assert (id in index && index[id] == p) <==> Held(env, live, x);
      if id in m && m[id] == p {
        var q :| q in live && x in Records(env, q, live[q]);
        assert q in live - {r} && (live - {r})[q] == live[q];
      }
      if Held(env, live - {r}, x) {
        var q :| q in live - {r} && x in Records(env, q, (live - {r})[q]);
        assert q in live && live[q] == (live - {r})[q];
        if id in ids { StemOfHeld(env, r, ids, q, live[q], x); }
      }
    }
    forall id | !IsUser(id) ensures id !in ids { NotUserNotOfStem(env, r, ids, id); }
  }

  lemma NotUserNotOfStem(env: Env, r: Rel, ids: seq<string>, id: string)
    requires OfStem(env, r, ids) && !IsUser(id)
    ensures id !in ids
  {
    hide RecordId, Sanitize;
    if id in ids {
      var n: nat :| id == RecordId(USER, SafeStem(env, r), n);
      UserId(SafeStem(env, r), n);
    }
  }

  ghost predicate FreshIds(index: map<string, string>, rs: seq<Record>) {
    && (forall i :: 0 <= i < |rs| ==> rs[i].id !in index)
    && (forall i, j :: 0 <= i < j < |rs| ==> rs[i].id != rs[j].id)
  }

  ghost predicate Lists(rs: seq<Record>, id: string) {
    exists i :: 0 <= i < |rs| && rs[i].id == id
  }

  lemma ListsLast(rs: seq<Record>, id: string)
    requires rs != []
    ensures Lists(rs, id) <==> Lists(rs[..|rs|-1], id) || rs[|rs|-1].id == id
  {
    var n := |rs| - 1;
    if i :| 0 <= i < |rs| && rs[i].id == id { if i < n { assert rs[..n][i].id == id; } }
    if i :| 0 <= i < n && rs[..n][i].id == id { assert rs[i].id == id; }
  }

  lemma {:induction false} WithFresh(index: map<string, string>, rs: seq<Record>)
    requires FreshIds(index, rs)
    ensures var m := With(index, rs);
            && |m| == |index| + |rs|
            && (forall id :: id in m <==> id in index || Lists(rs, id))
            && (forall i :: 0 <= i < |rs| ==> rs[i].id in m && m[rs[i].id] == rs[i].payload)
            && (forall id :: id in index ==> id in m && m[id] == index[id])
  {
    hide Lists, With;
    if rs == [] {
      WithNothing(index);
      ListsNothing();
    } else {
      var n := |rs| - 1;
      WithFresh(index, rs[..n]);
      NotListed(index, rs);
      WithLast(index, rs);
      forall id ensures id in With(index, rs) <==> id in index || Lists(rs, id) { ListsLast(rs, id); }
      forall i | 0 <= i < n ensures rs[..n][i] == rs[i] && rs[i].id != rs[n].id {}
    }
  }

  lemma WithLast(index: map<string, string>, rs: seq<Record>)
    requires rs != []
    requires rs[|rs|-1].id !in With(index, rs[..|rs|-1])
    ensures With(index, rs) == With(index, rs[..|rs|-1])[rs[|rs|-1].id := rs[|rs|-1].payload]
  {
  }

  lemma WithNothing(index: map<string, string>)
    ensures With(index, []) == index
  {
  }

  lemma ListsNothing()
    ensures forall id :: !Lists([], id)
  {
  }

  lemma NotListed(index: map<string, string>, rs: seq<Record>)
    requires FreshIds(index, rs) && rs != []
    ensures !Lists(rs[..|rs|-1], rs[|rs|-1].id)
  {
  }

  lemma RecordsFresh(env: Env, index: map<string, string>, live: map<Rel, string>, r: Rel, c: string)
    requires Numbered(env) && Agree(env, index, live) && r !in live && DistinctStems(env, live.Keys + {r})
    ensures FreshIds(index, Records(env, r, c))
  {
    hide RecordId, Sanitize, Records;
    var rs := Records(env, r, c);
    forall i | 0 <= i < |rs| ensures rs[i].id !in index {
      var k := RecordOf(env, r, c, rs[i]);
      var id := rs[i].id;
      if id in index {
        var y := Record(id, index[id]);
        assert Held(env, live, y);
        var q :| q in live && y in Records(env, q, live[q]);
        SameIdSameStem(env, r, c, q, live[q], rs[i], y);
      }
    }
    forall i, j | 0 <= i < j < |rs| ensures rs[i].id != rs[j].id {
      DifferentIds(env, r, c, i, j);
    }
  }

  lemma DifferentIds(env: Env, r: Rel, c: string, i: nat, j: nat)
    requires Numbered(env) && i < j < |Records(env, r, c)|
    ensures Records(env, r, c)[i].id != Records(env, r, c)[j].id
  {
    hide RecordId, Sanitize;
    RecordIdInjective(USER, SafeStem(env, r), env.pieces(r, c)[i].number, SafeStem(env, r), env.pieces(r, c)[j].number);
  }

  /** Adding a file's records adds that file and nothing else, and every one of them is new. */
  lemma WithAgrees(env: Env, index: map<string, string>, live: map<Rel, string>, r: Rel, c: string)
    requires Numbered(env) && Agree(env, index, live) && r !in live && DistinctStems(env, live.Keys + {r})
    ensures Agree(env, With(index, Records(env, r, c)), live[r := c])
    ensures SameRest(index, With(index, Records(env, r, c)))
    ensures |With(index, Records(env, r, c))| == |index| + |Records(env, r, c)|
  {
    hide RecordId, Sanitize, Records, With;
    var rs := Records(env, r, c);
    var m, after := With(index, rs), live[r := c];
    RecordsFresh(env, index, live, r, c);
    WithFresh(index, rs);
    forall id, p | IsUser(id) ensures (id in m && m[id] == p) <==> Held(env, after, Record(id, p)) {
      var x := Record(id, p);
      assert (id in index && index[id] == p) <==> Held(env, live, x);
      HeldMore(env, live, r, c, x);
      InWith(index, rs, x);
    }
    forall id | !IsUser(id) ensures id in index <==> id in m {
      if i :| 0 <= i < |rs| && rs[i].id == id { var k := RecordOf(env, r, c, rs[i]); }
    }
  }

  lemma HeldMore(env: Env, live: map<Rel, string>, r: Rel, c: string, x: Record)
    requires r !in live
    ensures Held(env, live[r := c], x) <==> Held(env, live, x) || x in Records(env, r, c)
  {
    hide Records;
    var after := live[r := c];
    if Held(env, after, x) {
      var q :| q in after && x in Records(env, q, after[q]);
      assert q == r || (q in live && x in Records(env, q, live[q]));
    }
    if Held(env, live, x) {
      var q :| q in live && x in Records(env, q, live[q]);
      assert q in after && after[q] == live[q];
    }
    if x in Records(env, r, c) { assert r in after && x in Records(env, r, after[r]); }
  }

  lemma InWith(index: map<string, string>, rs: seq<Record>, x: Record)
    requires FreshIds(index, rs)
    ensures x.id in With(index, rs) && With(index, rs)[x.id] == x.payload <==>
            (x.id in index && index[x.id] == x.payload) || x in rs
  {
    hide With;
    WithFresh(index, rs);
    var m := With(index, rs);
    if x.id in m && m[x.id] == x.payload && x.id !in index {
      var i :| 0 <= i < |rs| && rs[i].id == x.id;
      assert rs[i] == x;
    }
    if x in rs { var i :| 0 <= i < |rs| && rs[i] == x; }
  }

  // ---- What every refresh keeps ---------------------------------------------

  /** A state entry was written for some content that yielded records. */
  ghost predicate Made(env: Env, r: Rel, e: Entry) {
    exists c :: Records(env, r, c) != [] && e == EntryFor(env, r, c)
  }

  /** `live` says which content of each state file the index holds. An entry whose file
      yielded nothing the last time is kept by the state although the index holds nothing of it. */
  ghost predicate Tracked(env: Env, db: Db, live: map<Rel, string>) {
    && live.Keys == db.state.Keys
    && DistinctStems(env, live.Keys)
    && Agree(env, db.index, live)
    && Entered(env, db.state, live)
  }

  ghost predicate Entered(env: Env, state: map<Rel, Entry>, live: map<Rel, string>) {
    forall r :: r in live ==>
      r in state && Made(env, r, state[r]) && (Records(env, r, live[r]) != [] ==> state[r] == EntryFor(env, r, live[r]))
  }

  lemma EnterFile(env: Env, state: map<Rel, Entry>, live: map<Rel, string>, r: Rel, c: string)
    requires Entered(env, state, live) && Records(env, r, c) != []
    ensures Entered(env, state[r := EntryFor(env, r, c)], live[r := c])
  {
    hide Records;
    assert Made(env, r, EntryFor(env, r, c));
  }

  /** The index holds every record the state lists for the file. */
  predicate Present(db: Db, r: Rel) {
    forall id :: id in StateIds(db.state, r) ==> id in db.index
  }

  predicate Apart(ids: seq<string>) {
    forall i, j :: 0 <= i < j < |ids| ==> ids[i] != ids[j]
  }

  lemma MadeIds(env: Env, r: Rel, e: Entry)
    requires Numbered(env) && Made(env, r, e)
    ensures e.ids != [] && OfStem(env, r, e.ids) && Apart(e.ids)
  {
    hide RecordId, Sanitize, Records, OfStem;
    var c :| Records(env, r, c) != [] && e == EntryFor(env, r, c);
    IdsOfStem(env, r, c);
    forall i, j | 0 <= i < j < |e.ids| ensures e.ids[i] != e.ids[j] { DifferentIds(env, r, c, i, j); }
  }

  /** Whether the index has a file's listed records is settled by the content it holds. */
  lemma PresentOrAbsent(env: Env, db: Db, live: map<Rel, string>, r: Rel)
    requires Numbered(env) && Tracked(env, db, live) && r in live
    ensures Present(db, r) <==> Records(env, r, live[r]) != []
    ensures !Present(db, r) ==> forall id :: id in db.state[r].ids ==> id !in db.index
    ensures db.state[r].ids != [] && OfStem(env, r, db.state[r].ids) && Apart(db.state[r].ids)
    ensures forall x :: x in Records(env, r, live[r]) ==> x.id in db.state[r].ids
  {
    hide RecordId, Sanitize, Records, OfStem, IsUser;
    var ids := db.state[r].ids;
    MadeIds(env, r, db.state[r]);
    var rs := Records(env, r, live[r]);
    if rs != [] {
      forall id | id in ids ensures id in db.index {
        var k :| 0 <= k < |rs| && IdsOf(rs)[k] == id;
        ListedIsPresent(env, db.index, live, r, rs[k]);
      }
      forall x | x in rs ensures x.id in ids {
        var k :| 0 <= k < |rs| && rs[k] == x;
        assert IdsOf(rs)[k] == x.id;
      }
    } else {
      forall id | id in ids ensures id !in db.index {
        AbsentWithout(env, db.index, live, r, ids, id);
      }
      assert ids[0] in ids;
    }
  }

  lemma ListedIsPresent(env: Env, index: map<string, string>, live: map<Rel, string>, r: Rel, x: Record)
    requires Agree(env, index, live) && r in live && x in Records(env, r, live[r])
    ensures x.id in index && index[x.id] == x.payload
  {
    hide Records;
    var k := RecordOf(env, r, live[r], x);
    assert Held(env, live, Record(x.id, x.payload));
  }

  lemma AbsentWithout(env: Env, index: map<string, string>, live: map<Rel, string>, r: Rel, ids: seq<string>, id: string)
    requires Agree(env, index, live) && DistinctStems(env, live.Keys) && r in live
    requires OfStem(env, r, ids) && id in ids && Records(env, r, live[r]) == []
    ensures id !in index
  {
    hide RecordId, Sanitize, Records;
    var n: nat :| id == RecordId(USER, SafeStem(env, r), n);
    UserId(SafeStem(env, r), n);
    if id in index {
      var y := Record(id, index[id]);
      assert Held(env, live, y);
      var q :| q in live && y in Records(env, q, live[q]);
      StemOfHeld(env, r, ids, q, live[q], y);
    }
  }

  lemma {:induction false} WithoutSize(index: map<string, string>, ids: seq<string>)
    requires Apart(ids) && forall id :: id in ids ==> id in index
    ensures |Without(index, ids)| == |index| - |ids|
  {
    if ids == [] {
      assert Without(index, ids) == index;
    } else {
      var n := |ids| - 1;
      WithoutSize(index, ids[..n]);
      var u := Without(index, ids[..n]);
      assert ids[n] in ids && ids[n] !in ids[..n];
      assert forall id :: id in ids <==> id in ids[..n] || id == ids[n];
      assert Without(index, ids).Keys == u.Keys - {ids[n]};
      assert |Without(index, ids)| == |Without(index, ids).Keys| && |u| == |u.Keys|;
    }
  }

  lemma WithoutAbsent(index: map<string, string>, ids: seq<string>)
    requires forall id :: id in ids ==> id !in index
    ensures Without(index, ids) == index
  {
  }

  /** Size of the index, and what the counters make of it. */
  function Balance(db: Db): int {
    |db.index| + db.removed - db.added
  }

  lemma RemovedSize(env: Env, db: Db, live: map<Rel, string>, r: Rel)
    requires Numbered(env) && Tracked(env, db, live) && r in live
    ensures var m := Without(db.index, db.state[r].ids);
            if Present(db, r) then |m| == |db.index| - |db.state[r].ids| else |m| == |db.index|
    ensures |db.state[r].ids| > 0
  {
    hide Records, OfStem, Made, Agree;
    PresentOrAbsent(env, db, live, r);
    if Present(db, r) {
      WithoutSize(db.index, db.state[r].ids);
    } else {
      WithoutAbsent(db.index, db.state[r].ids);
    }
  }

  lemma DropKeeps(env: Env, db: Db, live: map<Rel, string>, r: Rel)
    requires Numbered(env) && Tracked(env, db, live) && r in live
    ensures Tracked(env, Drop(db, r), live - {r})
    ensures SameRest(db.index, Drop(db, r).index)
    ensures Balance(Drop(db, r)) == Balance(db) + if Present(db, r) then 0 else |db.state[r].ids|
    ensures |db.state[r].ids| > 0
  {
    hide Records, OfStem, Agree, Without, SameRest, EntryFor, Entered, Present, Apart, DistinctStems;
    PresentOrAbsent(env, db, live, r);
    RemovedSize(env, db, live, r);
    WithoutAgrees(env, db.index, live, r, db.state[r].ids);
    StemsSubset(env, live.Keys, (live - {r}).Keys);
    DropEntered(env, db.state, live, r);
    assert (live - {r}).Keys == (db.state - {r}).Keys;
  }

  lemma DropEntered(env: Env, state: map<Rel, Entry>, live: map<Rel, string>, r: Rel)
    requires Entered(env, state, live)
    ensures Entered(env, state - {r}, live - {r})
  {
    hide Records, Made, EntryFor;
  }

  /** A new file, or one whose old records have just been deleted. */
  lemma PutKeeps(env: Env, db: Db, live: map<Rel, string>, r: Rel, c: string)
    requires Numbered(env) && Tracked(env, db, live) && r !in live && DistinctStems(env, live.Keys + {r})
    ensures Tracked(env, Put(env, db, r, c, false), if Records(env, r, c) == [] then live else live[r := c])
    ensures SameRest(db.index, Put(env, db, r, c, false).index)
    ensures Balance(Put(env, db, r, c, false)) == Balance(db)
  {
    hide Records, Agree, SameRest, Without, With, Entered, EntryFor, DistinctStems, Numbered;
    WithoutAbsent(db.index, []);
    RestSame(db.index);
    if Records(env, r, c) != [] {
      WithAgrees(env, db.index, live, r, c);
      EnterFile(env, db.state, live, r, c);
      assert live[r := c].Keys == live.Keys + {r};
    }
  }

  lemma RestSame(m: map<string, string>)
    ensures SameRest(m, m)
  {
  }

  lemma RestTrans(a: map<string, string>, b: map<string, string>, c: map<string, string>)
    requires SameRest(a, b) && SameRest(b, c)
    ensures SameRest(a, c)
  {
    hide IsUser;
  }

  /** A modified file with records is dropped and put back. */
  lemma ModifyIsDropAndPut(env: Env, db: Db, r: Rel, c: string)
    requires Records(env, r, c) != []
    ensures Put(env, db, r, c, true) == Put(env, Drop(db, r), r, c, false)
  {
    hide Records, With, EntryFor, Without;
    WithoutAbsent(Drop(db, r).index, []);
    assert (db.state - {r})[r := EntryFor(env, r, c)] == db.state[r := EntryFor(env, r, c)];
  }

  /** A modified file that still yields records. */
  lemma ReplacedKeeps(env: Env, db: Db, live: map<Rel, string>, r: Rel, c: string)
    requires Numbered(env) && Tracked(env, db, live) && r in live && Records(env, r, c) != []
    ensures Tracked(env, Put(env, db, r, c, true), live[r := c])
    ensures SameRest(db.index, Put(env, db, r, c, true).index)
    ensures Balance(Put(env, db, r, c, true)) == Balance(Drop(db, r))
  {
    hide Records, Agree, SameRest, Entered, DistinctStems, Numbered, Put, Balance;
    var d, rest := Drop(db, r), live - {r};
    DropKeeps(env, db, live, r);
    StemsSubset(env, live.Keys, rest.Keys + {r});
    PutKeeps(env, d, rest, r, c);
    ModifyIsDropAndPut(env, db, r, c);
    RestTrans(db.index, d.index, Put(env, d, r, c, false).index);
    assert rest[r := c] == live[r := c];
  }

  /** A modified file: its old records go, its new ones come. */
  lemma ModifyKeeps(env: Env, db: Db, live: map<Rel, string>, r: Rel, c: string)
    requires Numbered(env) && Tracked(env, db, live) && r in live
    ensures Tracked(env, Put(env, db, r, c, true), live[r := c])
    ensures SameRest(db.index, Put(env, db, r, c, true).index)
    ensures Balance(Put(env, db, r, c, true)) == Balance(db) + if Present(db, r) then 0 else |db.state[r].ids|
    ensures |db.state[r].ids| > 0
  {
    hide Records, Agree, SameRest, Entered, DistinctStems, Numbered, Put, Drop, Present;
    DropKeeps(env, db, live, r);
    if Records(env, r, c) == [] {
      EmptiedKeeps(env, db, live, r, c);
    } else {
      ReplacedKeeps(env, db, live, r, c);
    }
  }

  /** A modified file that yields nothing any more. */
  lemma EmptiedKeeps(env: Env, db: Db, live: map<Rel, string>, r: Rel, c: string)
    requires Tracked(env, db, live) && r in live && Records(env, r, c) == []
    requires Agree(env, Drop(db, r).index, live - {r})
    ensures Put(env, db, r, c, true) == Drop(db, r).(state := db.state)
    ensures Tracked(env, Put(env, db, r, c, true), live[r := c])
  {
    hide Records, Agree, Entered, DistinctStems, Without;
    var rest := live - {r};
    assert rest[r := c] == live[r := c] && live[r := c].Keys == live.Keys;
    ForgetEmpty(env, Drop(db, r).index, rest, r, c);
    EmptyEntered(env, db.state, live, r, c);
  }

  lemma EmptyEntered(env: Env, state: map<Rel, Entry>, live: map<Rel, string>, r: Rel, c: string)
    requires Entered(env, state, live) && r in live && Records(env, r, c) == []
    ensures Entered(env, state, live[r := c])
  {
    hide Records, Made;
  }

  lemma StemsSubset(env: Env, a: set<Rel>, b: set<Rel>)
    requires DistinctStems(env, a) && b <= a
    ensures DistinctStems(env, b)
  {
  }

  /** A file without records makes no difference to what is held. */
  lemma ForgetEmpty(env: Env, index: map<string, string>, live: map<Rel, string>, r: Rel, c: string)
    requires Agree(env, index, live) && r !in live && Records(env, r, c) == []
    ensures Agree(env, index, live[r := c])
  {
    hide Records;
    forall id, p | IsUser(id)
      ensures (id in index && index[id] == p) <==> Held(env, live[r := c], Record(id, p))
    {
      var x := Record(id, p);
      assert (id in index && index[id] == p) <==> Held(env, live, x);
      if Held(env, live, x) {
        var q :| q in live && x in Records(env, q, live[q]);
        assert q in live[r := c] && live[r := c][q] == live[q];
      }
      if Held(env, live[r := c], x) {
        var q :| q in live[r := c] && x in Records(env, q, live[r := c][q]);
        assert q in live;
      }
    }
  }

  function Members(rs: seq<Rel>): set<Rel> {
    set r | r in rs
  }

  /** Whether a file's records are there does not change while it is not touched. */
  lemma PresentStays(env: Env, a: Db, la: map<Rel, string>, b: Db, lb: map<Rel, string>, r: Rel)
    requires Numbered(env) && Tracked(env, a, la) && Tracked(env, b, lb)
    requires r in la && r in lb && la[r] == lb[r]
    ensures Present(a, r) == Present(b, r)
  {
    hide Records, Agree, Entered, Present, DistinctStems;
    PresentOrAbsent(env, a, la, r);
    PresentOrAbsent(env, b, lb, r);
  }

  lemma {:induction false} DropAllKeeps(env: Env, db: Db, live: map<Rel, string>, rs: seq<Rel>)
    requires Numbered(env) && Tracked(env, db, live)
    requires NoRepeats(rs) && forall r :: r in rs ==> r in live
    ensures Tracked(env, DropAll(db, rs), live - Members(rs))
    ensures DropAll(db, rs).state == db.state - Members(rs)
    ensures SameRest(db.index, DropAll(db, rs).index)
    ensures Balance(DropAll(db, rs)) >= Balance(db)
    ensures Balance(DropAll(db, rs)) == Balance(db) <==> forall r :: r in rs ==> Present(db, r)
  {
    hide Agree, Entered, Present, SameRest, Without, DistinctStems, Numbered, Balance;
    if rs == [] {
      RestSame(db.index);
      assert live - Members(rs) == live && db.state - Members(rs) == db.state;
    } else {
      var n := |rs| - 1;
      var r := rs[n];
      DropAllKeeps(env, db, live, rs[..n]);
      var u := DropAll(db, rs[..n]);
      var rest := live - Members(rs[..n]);
      assert r in rs && r !in rs[..n];
      DropKeeps(env, u, rest, r);
      PresentStays(env, db, live, u, rest, r);
      assert forall q :: q in rs <==> q in rs[..n] || q == r;
      assert Members(rs) == Members(rs[..n]) + {r};
      assert rest - {r} == live - Members(rs);
      assert u.state - {r} == db.state - Members(rs);
      RestTrans(db.index, u.index, DropAll(db, rs).index);
    }
  }

  /** How putting files moves what the index holds. */
  ghost predicate Moved(env: Env, db: Db, live: map<Rel, string>, after: Db, now: map<Rel, string>,
                        rs: seq<Rel>, files: map<Rel, string>)
    requires forall r :: r in rs ==> r in files
  {
    && (forall r :: r !in rs ==> (r in now <==> r in live) && (r in live && r in now ==> now[r] == live[r]))
    && (forall r :: r in rs && r in now ==> now[r] == files[r])
    && (forall r :: r in rs ==> (r in now <==> r in live || Records(env, r, files[r]) != []))
    && (forall r :: r in db.state && (r !in rs || Records(env, r, files[r]) == []) ==>
          r in after.state && after.state[r] == db.state[r])
  }

  lemma MovedNot(env: Env, db: Db, live: map<Rel, string>, files: map<Rel, string>)
    ensures Moved(env, db, live, db, live, [], files)
  {
    hide Records;
  }

  lemma MovedOther(env: Env, db: Db, live: map<Rel, string>, after: Db, now: map<Rel, string>,
                   rs: seq<Rel>, files: map<Rel, string>, r: Rel)
    requires (forall q :: q in rs ==> q in files) && Moved(env, db, live, after, now, rs, files) && r !in rs
    ensures (r in now <==> r in live) && (r in live ==> now[r] == live[r])
  {
    hide Records;
  }

  lemma MovedKeys(env: Env, db: Db, live: map<Rel, string>, after: Db, now: map<Rel, string>,
                  rs: seq<Rel>, files: map<Rel, string>)
    requires (forall q :: q in rs ==> q in files) && Moved(env, db, live, after, now, rs, files)
    ensures now.Keys <= live.Keys + Members(rs)
  {
    hide Records;
  }

  lemma MovedStep(env: Env, db: Db, live: map<Rel, string>, u: Db, mid: map<Rel, string>,
                  after: Db, now: map<Rel, string>, rs: seq<Rel>, files: map<Rel, string>)
    requires rs != [] && NoRepeats(rs) && forall q :: q in rs ==> q in files
    requires Moved(env, db, live, u, mid, rs[..|rs|-1], files)
    requires var r := rs[|rs|-1];
             var rec := Records(env, r, files[r]) != [];
             && now == (if r in live || rec then mid[r := files[r]] else mid)
             && after.state == (if rec then u.state[r := EntryFor(env, r, files[r])] else u.state)
    ensures Moved(env, db, live, after, now, rs, files)
  {
    hide Records, EntryFor;
    var n := |rs| - 1;
    var front := rs[..n];
    assert rs[n] !in front;
    forall q ensures q in rs <==> q in front || q == rs[n] {}
    forall q | q !in rs ensures (q in now <==> q in live) && (q in live && q in now ==> now[q] == live[q]) {
      assert q !in front;
    }
    forall q | q in rs && q in now ensures now[q] == files[q] {
      assert q in front || q == rs[n];
    }
    forall q | q in rs ensures q in now <==> q in live || Records(env, q, files[q]) != [] {
      assert q in front || q == rs[n];
    }
  }

  lemma {:induction false} PutAllKeeps(env: Env, db: Db, live: map<Rel, string>, rs: seq<Rel>,
                                       files: map<Rel, string>, modified: seq<Rel>) returns (now: map<Rel, string>)
    requires Numbered(env) && Tracked(env, db, live)
    requires NoRepeats(rs) && forall r :: r in rs ==> r in files && (r in modified <==> r in live)
    requires DistinctStems(env, live.Keys + Members(rs))
    ensures Tracked(env, PutAll(env, db, rs, files, modified), now)
    ensures Moved(env, db, live, PutAll(env, db, rs, files, modified), now, rs, files)
    ensures SameRest(db.index, PutAll(env, db, rs, files, modified).index)
    ensures Balance(PutAll(env, db, rs, files, modified)) >= Balance(db)
    ensures Balance(PutAll(env, db, rs, files, modified)) == Balance(db) <==>
            forall r :: r in rs && r in live ==> Present(db, r)
  {
    hide Agree, Entered, Present, SameRest, Without, With, DistinctStems, Numbered, Records, Balance, EntryFor, Moved;
    if rs == [] {
      MovedNot(env, db, live, files);
      RestSame(db.index);
      now := live;
    } else {
      var n := |rs| - 1;
      var r := rs[n];
      var u := PutAll(env, db, rs[..n], files, modified);
      assert r in rs && r !in rs[..n];
      assert forall q :: q in rs <==> q in rs[..n] || q == r;
      StemsSubset(env, live.Keys + Members(rs), live.Keys + Members(rs[..n]));
      var mid := PutAllKeeps(env, db, live, rs[..n], files, modified);
      MovedOther(env, db, live, u, mid, rs[..n], files, r);
      if r in live {
        ModifyKeeps(env, u, mid, r, files[r]);
        PresentStays(env, db, live, u, mid, r);
        now := mid[r := files[r]];
      } else {
        MovedKeys(env, db, live, u, mid, rs[..n], files);
        assert mid.Keys + {r} <= live.Keys + Members(rs);
        StemsSubset(env, live.Keys + Members(rs), mid.Keys + {r});
        PutKeeps(env, u, mid, r, files[r]);
        now := if Records(env, r, files[r]) == [] then mid else mid[r := files[r]];
      }
      MovedStep(env, db, live, u, mid, PutAll(env, db, rs, files, modified), now, rs, files);
      RestTrans(db.index, u.index, PutAll(env, db, rs, files, modified).index);
    }
  }

  /** Adding never replaces a record that is there. */
  lemma {:induction false} AddingKeeps(index: map<string, string>, rs: seq<Record>, id: string)
    requires id in index
    ensures id in With(index, rs) && With(index, rs)[id] == index[id]
  {
    if rs != [] { AddingKeeps(index, rs[..|rs|-1], id); }
  }
}
