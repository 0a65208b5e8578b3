/** The refresh against a rebuild: when they agree, when a following check is quiet, and
    when the counters add up, for one refresh and over whole runs of them. */
module IndexRebuild {
  import opened RecordIds
  import opened IndexRefresh
  import opened IndexTheorems

  /** Seen but not changed since it was last processed. */
  predicate IsUnchanged(env: Env, state: map<Rel, Entry>, files: map<Rel, string>, r: Rel) {
    r in files && r in state && env.hash(files[r]) == state[r].hash
  }

  /** What a refresh makes of what the index holds. */
  ghost predicate Followed(env: Env, db: Db, live: map<Rel, string>, files: map<Rel, string>,
                           after: Db, now: map<Rel, string>) {
    && now.Keys <= files.Keys
    && (forall r :: r in files && !IsUnchanged(env, db.state, files, r) && r in now ==> now[r] == files[r])
    && (forall r :: r in files && !IsUnchanged(env, db.state, files, r) ==>
          (r in now <==> r in live || Records(env, r, files[r]) != []))
    && (forall r :: IsUnchanged(env, db.state, files, r) && r in live ==> r in now && now[r] == live[r])
    && (forall r :: r in db.state && r in files &&
                    (IsUnchanged(env, db.state, files, r) || Records(env, r, files[r]) == []) ==>
          r in after.state && after.state[r] == db.state[r])
  }

  lemma TodoOnce(env: Env, state: map<Rel, Entry>, files: map<Rel, string>, ch: Changes)
    requires Exact(env, state, files, ch)
    ensures NoRepeats(ch.created + ch.modified)
    ensures forall r :: r in ch.created + ch.modified <==>
                        r in files && !IsUnchanged(env, state, files, r)
  {
    var c, m := ch.created, ch.modified;
    forall i, j | 0 <= i < j < |c + m| ensures (c + m)[i] != (c + m)[j] {
      if i < |c| && |c| <= j { assert c[i] in c && m[j - |c|] in m; }
    }
  }

  lemma RefreshKeeps(env: Env, db: Db, live: map<Rel, string>, files: map<Rel, string>, ch: Changes)
    returns (now: map<Rel, string>)
    requires Numbered(env) && Tracked(env, db, live)
    requires Exact(env, db.state, files, ch) && DistinctStems(env, files.Keys)
    ensures forall r :: r in ch.created + ch.modified ==> r in files
    ensures Tracked(env, Refreshed(env, db, files, ch), now)
    ensures Followed(env, db, live, files, Refreshed(env, db, files, ch), now)
    ensures SameRest(db.index, Refreshed(env, db, files, ch).index)
    ensures Balance(Refreshed(env, db, files, ch)) == Balance(db) <==>
            forall r :: r in ch.deleted + ch.modified ==> Present(db, r)
  {
    hide Agree, Entered, Present, SameRest, DistinctStems, Numbered, Records, Balance, DropAll, PutAll, Moved;
    var d := DropAll(db, ch.deleted);
    var kept := live - Members(ch.deleted);
    var todo := ch.created + ch.modified;
    TodoOnce(env, db.state, files, ch);
    DropAllKeeps(env, db, live, ch.deleted);
    assert kept.Keys <= files.Keys;
    StemsSubset(env, files.Keys, kept.Keys + Members(todo));
    now := PutAllKeeps(env, d, kept, todo, files, ch.modified);
    FollowedFromMoved(env, db, live, files, ch, d, kept, PutAll(env, d, todo, files, ch.modified), now);
    forall r | r in kept ensures Present(d, r) == Present(db, r) { PresentStays(env, db, live, d, kept, r); }
    RestTrans(db.index, d.index, Refreshed(env, db, files, ch).index);
    assert forall r :: r in todo && r in kept <==> r in ch.modified;
  }

  lemma KeptAreCurrent(env: Env, state: map<Rel, Entry>, files: map<Rel, string>, ch: Changes)
    requires Exact(env, state, files, ch)
    ensures forall r :: r in state && r !in Members(ch.deleted) <==> r in state && r in files
  {
  }

  lemma FollowedFromMoved(env: Env, db: Db, live: map<Rel, string>, files: map<Rel, string>, ch: Changes,
                          d: Db, kept: map<Rel, string>, after: Db, now: map<Rel, string>)
    requires live.Keys == db.state.Keys && Exact(env, db.state, files, ch)
    requires kept == live - Members(ch.deleted) && d.state == db.state - Members(ch.deleted)
    requires forall r :: r in ch.created + ch.modified ==> r in files
    requires Moved(env, d, kept, after, now, ch.created + ch.modified, files)
    ensures Followed(env, db, live, files, after, now)
  {
    TodoOnce(env, db.state, files, ch);
    KeptAreCurrent(env, db.state, files, ch);
    assert forall r :: r in kept <==> r in live && r in files;
    Recast(env, db, live, files, ch.created + ch.modified, d, kept, after, now);
  }

  /** What moved, said in terms of the state before the deletions. */
  lemma Recast(env: Env, db: Db, live: map<Rel, string>, files: map<Rel, string>, todo: seq<Rel>,
               d: Db, kept: map<Rel, string>, after: Db, now: map<Rel, string>)
    requires live.Keys == db.state.Keys
    requires forall r :: r in todo <==> r in files && !IsUnchanged(env, db.state, files, r)
    requires forall r :: r in kept <==> r in live && r in files
    requires forall r :: r in kept ==> kept[r] == live[r] && r in d.state && d.state[r] == db.state[r]
    requires Moved(env, d, kept, after, now, todo, files)
    ensures Followed(env, db, live, files, after, now)
  {
    hide Records, IsUnchanged;
    forall r | r in now ensures r in files { assert r in todo || r in kept; }
    forall r | IsUnchanged(env, db.state, files, r) ensures r in files && r in db.state {
      UnchangedKnown(env, db.state, files, r);
    }
  }

  lemma UnchangedKnown(env: Env, state: map<Rel, Entry>, files: map<Rel, string>, r: Rel)
    requires IsUnchanged(env, state, files, r)
    ensures r in files && r in state
  {
  }

  // ---- Refresh and rebuild --------------------------------------------------

  /** Every file the refresh will take for unchanged still has its records in the index. */
  ghost predicate NoLostFile(env: Env, db: Db, files: map<Rel, string>) {
    forall r :: IsUnchanged(env, db.state, files, r) ==> Present(db, r)
  }

  lemma AgreeTransfer(env: Env, index: map<string, string>, now: map<Rel, string>, files: map<Rel, string>)
    requires Agree(env, index, now)
    requires forall r :: r in now ==> r in files && now[r] == files[r]
    requires forall r :: r in files && r !in now ==> Records(env, r, files[r]) == []
    ensures Agree(env, index, files)
  {
    hide Records, IsUser;
    forall id, p | IsUser(id) ensures (id in index && index[id] == p) <==> Held(env, files, Record(id, p)) {
      var x := Record(id, p);
      assert (id in index && index[id] == p) <==> Held(env, now, x);
      if Held(env, now, x) {
        var r :| r in now && x in Records(env, r, now[r]);
        assert r in files && x in Records(env, r, files[r]);
      }
      if Held(env, files, x) {
        var r :| r in files && x in Records(env, r, files[r]);
        assert r in now && x in Records(env, r, now[r]);
      }
    }
  }

  /** An unchanged file whose records are there is held with its current content. */
  lemma UnchangedIsCurrent(env: Env, db: Db, live: map<Rel, string>, files: map<Rel, string>, r: Rel)
    requires Numbered(env) && Injective(env) && Tracked(env, db, live)
    requires IsUnchanged(env, db.state, files, r) && Present(db, r)
    ensures r in live && live[r] == files[r]
  {
    hide Records, Agree, DistinctStems, Present, Numbered;
    PresentOrAbsent(env, db, live, r);
    assert db.state[r] == EntryFor(env, r, live[r]);
    assert env.hash(live[r]) == env.hash(files[r]);
  }

  /** An unchanged file whose records are gone does yield records. */
  lemma LostFileYields(env: Env, db: Db, live: map<Rel, string>, files: map<Rel, string>, r: Rel)
    requires Numbered(env) && Injective(env) && Tracked(env, db, live)
    requires IsUnchanged(env, db.state, files, r) && !Present(db, r)
    ensures r in live && Records(env, r, live[r]) == [] && Records(env, r, files[r]) != []
  {
    hide Records, Agree, DistinctStems, Present, Numbered;
    PresentOrAbsent(env, db, live, r);
    assert Made(env, r, db.state[r]);
    var c :| Records(env, r, c) != [] && db.state[r] == EntryFor(env, r, c);
    assert env.hash(c) == env.hash(files[r]);
  }

  lemma LostFileShows(env: Env, index: map<string, string>, now: map<Rel, string>, files: map<Rel, string>, r: Rel)
    requires Agree(env, index, now) && Agree(env, index, files)
    requires now.Keys <= files.Keys && DistinctStems(env, files.Keys) && r in files
    requires r in now ==> Records(env, r, now[r]) == []
    ensures Records(env, r, files[r]) == []
  {
    hide RecordId, Sanitize, Records;
    if Records(env, r, files[r]) != [] {
      var x := Records(env, r, files[r])[0];
      var k := RecordOf(env, r, files[r], x);
      assert x == Record(x.id, x.payload) && Held(env, files, x);
      assert Held(env, now, x);
      var q :| q in now && x in Records(env, q, now[q]);
      SameIdSameStem(env, r, files[r], q, now[q], x, x);
    }
  }

  /** An incremental refresh leaves exactly the user records a rebuild would, and nothing
      else touched, precisely when no file it takes for unchanged has lost its records. */
  lemma RefreshIsRebuild(env: Env, db: Db, live: map<Rel, string>, files: map<Rel, string>, ch: Changes)
    requires Numbered(env) && Injective(env) && Tracked(env, db, live)
    requires Exact(env, db.state, files, ch) && DistinctStems(env, files.Keys)
    ensures forall r :: r in ch.created + ch.modified ==> r in files
    ensures SameRest(db.index, Refreshed(env, db, files, ch).index)
    ensures Agree(env, Refreshed(env, db, files, ch).index, files) <==> NoLostFile(env, db, files)
  {
    hide Agree, Entered, Present, SameRest, DistinctStems, Numbered, Injective, Records, Refreshed, Exact, Balance;
    var now := RefreshKeeps(env, db, live, files, ch);
    var after := Refreshed(env, db, files, ch);
    if NoLostFile(env, db, files) {
      forall r | r in now ensures r in files && now[r] == files[r] {
        if IsUnchanged(env, db.state, files, r) { UnchangedIsCurrent(env, db, live, files, r); }
      }
      forall r | r in files && r !in now ensures Records(env, r, files[r]) == [] {
        if IsUnchanged(env, db.state, files, r) { UnchangedIsCurrent(env, db, live, files, r); }
      }
      AgreeTransfer(env, after.index, now, files);
    } else {
      var r :| IsUnchanged(env, db.state, files, r) && !Present(db, r);
      LostFileYields(env, db, live, files, r);
      if Agree(env, after.index, files) {
        LostFileShows(env, after.index, now, files, r);
        assert false;
      }
    }
  }

  /** The next check reports nothing precisely when every file just processed yielded records. */
  lemma QuietAfterRefresh(env: Env, db: Db, live: map<Rel, string>, files: map<Rel, string>, ch: Changes)
    requires Numbered(env) && Tracked(env, db, live)
    requires Exact(env, db.state, files, ch) && DistinctStems(env, files.Keys)
    ensures forall r :: r in ch.created + ch.modified ==> r in files
    ensures Exact(env, Refreshed(env, db, files, ch).state, files, Changes([], [], [])) <==>
            forall r :: r in ch.created + ch.modified ==> Records(env, r, files[r]) != []
  {
    hide Agree, Present, SameRest, DistinctStems, Numbered, Records, Refreshed, Balance, Exact, Entered, Followed;
    var now := RefreshKeeps(env, db, live, files, ch);
    var after := Refreshed(env, db, files, ch);
    TodoOnce(env, db.state, files, ch);
    forall r ensures Stirs(env, after.state, files, r) <==>
                     r in ch.created + ch.modified && Records(env, r, files[r]) == []
    {
      StillStirs(env, db, live, files, after, now, r);
    }
    QuietMeans(env, after.state, files);
  }

  /** The file counts as new, modified or deleted. */
  predicate Stirs(env: Env, state: map<Rel, Entry>, files: map<Rel, string>, r: Rel) {
    IsNew(state, files, r) || IsModified(env, state, files, r) || IsDeleted(state, files, r)
  }

  lemma QuietMeans(env: Env, state: map<Rel, Entry>, files: map<Rel, string>)
    ensures Exact(env, state, files, Changes([], [], [])) <==> forall r :: !Stirs(env, state, files, r)
  {
    hide IsNew, IsModified, IsDeleted;
    forall r: Rel ensures r !in [] {}
    if forall r :: !Stirs(env, state, files, r) {
      forall r ensures !IsNew(state, files, r) && !IsModified(env, state, files, r) && !IsDeleted(state, files, r) {
        assert !Stirs(env, state, files, r);
      }
    }
  }

  lemma StillStirs(env: Env, db: Db, live: map<Rel, string>, files: map<Rel, string>, after: Db,
                   now: map<Rel, string>, r: Rel)
    requires Tracked(env, db, live) && Tracked(env, after, now) && Followed(env, db, live, files, after, now)
    ensures Stirs(env, after.state, files, r) <==>
            r in files && !IsUnchanged(env, db.state, files, r) && Records(env, r, files[r]) == []
  {
    hide Agree, DistinctStems, Records, Made;
    assert r in now <==> r in after.state;
    if r in files && !IsUnchanged(env, db.state, files, r) && Records(env, r, files[r]) != [] {
      assert r in now && now[r] == files[r] && after.state[r] == EntryFor(env, r, files[r]);
    }
  }

  /** The index grows by exactly what the refresh counts as added less what it counts as
      removed, precisely when every deleted or modified file still had its records. */
  lemma CountersAddUp(env: Env, db: Db, live: map<Rel, string>, files: map<Rel, string>, ch: Changes)
    requires Numbered(env) && Tracked(env, db, live)
    requires Exact(env, db.state, files, ch) && DistinctStems(env, files.Keys)
    ensures forall r :: r in ch.created + ch.modified ==> r in files
    ensures var after := Refreshed(env, db, files, ch);
            |after.index| - |db.index| == (after.added - db.added) - (after.removed - db.removed) <==>
            forall r :: r in ch.deleted + ch.modified ==> Present(db, r)
  {
    hide Agree, Present, SameRest, DistinctStems, Numbered, Records, Refreshed, Exact, Tracked, Followed;
    var now := RefreshKeeps(env, db, live, files, ch);
  }

  // ---- Runs of refreshes ----------------------------------------------------

  datatype Round = Round(files: map<Rel, string>, ch: Changes)

  /** Each round works on the changes a check finds at that point. */
  ghost predicate Runs(env: Env, start: map<string, string>, rounds: seq<Round>)
    decreases |rounds|, 0
  {
    rounds == [] ||
    var n := |rounds| - 1;
    && Runs(env, start, rounds[..n])
    && Exact(env, Reached(env, start, rounds[..n]).state, rounds[n].files, rounds[n].ch)
    && DistinctStems(env, rounds[n].files.Keys)
  }

  /** The index and state after the rounds, starting from an index without user records. */
  ghost function Reached(env: Env, start: map<string, string>, rounds: seq<Round>): Db
    requires Runs(env, start, rounds)
    decreases |rounds|, 1
  {
    if rounds == [] then Db(start, map[], 0, 0)
    else
      var n := |rounds| - 1;
      Refreshed(env, Reached(env, start, rounds[..n]), rounds[n].files, rounds[n].ch)
  }

  ghost predicate Bare(start: map<string, string>) {
    forall id :: id in start ==> !IsUser(id)
  }

  lemma BareTracked(env: Env, start: map<string, string>)
    requires Bare(start)
    ensures Tracked(env, Db(start, map[], 0, 0), map[])
  {
    hide Records;
  }

  /** Over every run, the index holds for each state file one content, or nothing. */
  lemma {:induction false} RunTracked(env: Env, start: map<string, string>, rounds: seq<Round>)
    returns (live: map<Rel, string>)
    requires Numbered(env) && Bare(start) && Runs(env, start, rounds)
    ensures Tracked(env, Reached(env, start, rounds), live)
    ensures SameRest(start, Reached(env, start, rounds).index)
  {
    hide Agree, Entered, SameRest, DistinctStems, Numbered, Records, Refreshed, Exact, Balance, Followed;
    if rounds == [] {
      live := map[];
      BareTracked(env, start);
      RestSame(start);
    } else {
      var n := |rounds| - 1;
      var before := RunTracked(env, start, rounds[..n]);
      var db := Reached(env, start, rounds[..n]);
      live := RefreshKeeps(env, db, before, rounds[n].files, rounds[n].ch);
      RestTrans(start, db.index, Reached(env, start, rounds).index);
    }
  }

  ghost predicate AllYield(env: Env, files: map<Rel, string>) {
    forall r :: r in files ==> Records(env, r, files[r]) != []
  }

  /** As long as every watched file yields records, what is tracked is the last round's files. */
  lemma {:induction false} FullRunTracked(env: Env, start: map<string, string>, rounds: seq<Round>)
    requires Numbered(env) && Injective(env) && Bare(start) && Runs(env, start, rounds)
    requires forall i :: 0 <= i < |rounds| ==> AllYield(env, rounds[i].files)
    ensures Tracked(env, Reached(env, start, rounds), if rounds == [] then map[] else rounds[|rounds|-1].files)
  {
    hide Agree, Entered, SameRest, DistinctStems, Numbered, Injective, Records, Refreshed, Exact, Balance, Present;
    if rounds == [] {
      BareTracked(env, start);
    } else {
      var n := |rounds| - 1;
      var files := rounds[n].files;
      FullRunTracked(env, start, rounds[..n]);
      var db := Reached(env, start, rounds[..n]);
      var live := if n == 0 then map[] else rounds[n - 1].files;
      assert n > 0 ==> rounds[..n][n - 1] == rounds[n - 1];
      var now := RefreshKeeps(env, db, live, files, rounds[n].ch);
      forall r | r in files ensures r in now && now[r] == files[r] {
        if IsUnchanged(env, db.state, files, r) {
          PresentOrAbsent(env, db, live, r);
          UnchangedIsCurrent(env, db, live, files, r);
        }
      }
      assert now == files;
    }
  }

  /** After every refresh of such a run, the user part of the index is exactly the records of
      the current files, the next check finds nothing, and the counters match the growth. */
  lemma FullRunIsRebuild(env: Env, start: map<string, string>, rounds: seq<Round>)
    requires Numbered(env) && Injective(env) && Bare(start) && Runs(env, start, rounds) && rounds != []
    requires forall i :: 0 <= i < |rounds| ==> AllYield(env, rounds[i].files)
    ensures var db := Reached(env, start, rounds);
            var files := rounds[|rounds|-1].files;
            && Agree(env, db.index, files) && SameRest(start, db.index)
            && Exact(env, db.state, files, Changes([], [], []))
            && |db.index| - |start| == db.added - db.removed
  {
    hide Agree, Entered, SameRest, DistinctStems, Numbered, Injective, Records, Refreshed, Present, Balance;
    var files := rounds[|rounds|-1].files;
    var db := Reached(env, start, rounds);
    FullRunTracked(env, start, rounds);
    var live := RunTracked(env, start, rounds);
    QuietFullRun(env, db, files);
    FullRunBalance(env, start, rounds);
    BalanceMeans(db, start);
  }

  lemma BalanceMeans(db: Db, start: map<string, string>)
    requires Balance(db) == |start|
    ensures |db.index| - |start| == db.added - db.removed
  {
  }

  lemma QuietFullRun(env: Env, db: Db, files: map<Rel, string>)
    requires Tracked(env, db, files) && AllYield(env, files)
    ensures Exact(env, db.state, files, Changes([], [], []))
  {
    hide Agree, Records, DistinctStems, Made;
  }

  lemma {:induction false} FullRunBalance(env: Env, start: map<string, string>, rounds: seq<Round>)
    requires Numbered(env) && Injective(env) && Bare(start) && Runs(env, start, rounds)
    requires forall i :: 0 <= i < |rounds| ==> AllYield(env, rounds[i].files)
    ensures Balance(Reached(env, start, rounds)) == |start|
  {
    hide Agree, Entered, SameRest, DistinctStems, Numbered, Injective, Records, Refreshed, Present, Followed;
    if rounds != [] {
      var n := |rounds| - 1;
      FullRunBalance(env, start, rounds[..n]);
      FullRunTracked(env, start, rounds[..n]);
      var db := Reached(env, start, rounds[..n]);
      var live := if n == 0 then map[] else rounds[n - 1].files;
      assert n > 0 ==> rounds[..n][n - 1] == rounds[n - 1];
      var now := RefreshKeeps(env, db, live, rounds[n].files, rounds[n].ch);
      forall r | r in rounds[n].ch.deleted + rounds[n].ch.modified ensures Present(db, r) {
        assert r in db.state;
        PresentOrAbsent(env, db, live, r);
      }
    }
  }

  // ---- A file that is lost --------------------------------------------------

  lemma ReachedMore(env: Env, start: map<string, string>, rounds: seq<Round>, round: Round)
    requires Runs(env, start, rounds)
    ensures Runs(env, start, rounds + [round]) <==>
            Exact(env, Reached(env, start, rounds).state, round.files, round.ch) && DistinctStems(env, round.files.Keys)
    ensures Runs(env, start, rounds + [round]) ==>
            && (forall r :: r in round.ch.created + round.ch.modified ==> r in round.files)
            && Reached(env, start, rounds + [round]) == Refreshed(env, Reached(env, start, rounds), round.files, round.ch)
  {
    hide Refreshed;
    assert (rounds + [round])[..|rounds|] == rounds;
  }

  lemma RefreshOne(env: Env, db: Db, r: Rel, c: string)
    ensures Refreshed(env, db, map[r := c], Changes([r], [], [])) == Put(env, db, r, c, false)
    ensures Refreshed(env, db, map[r := c], Changes([], [r], [])) == Put(env, db, r, c, true)
  {
    hide Put;
    assert [r] + [] == [r] && [] + [r] == [r] && [r][..0] == [];
    assert PutAll(env, db, [], map[r := c], []) == db && PutAll(env, db, [], map[r := c], [r]) == db;
  }

  lemma OneFileChanges(env: Env, r: Rel, full: string, empty: string)
    requires env.hash(full) != env.hash(empty)
    ensures var state := map[r := EntryFor(env, r, full)];
            && Exact(env, map[], map[r := full], Changes([r], [], []))
            && Exact(env, state, map[r := empty], Changes([], [r], []))
            && Exact(env, state, map[r := full], Changes([], [], []))
            && IsUnchanged(env, state, map[r := full], r)
  {
    hide Records, IdsOf;
  }

  /** After one refresh with records and one without, the state lists ids the index lacks. */
  lemma StaleEntry(env: Env, r: Rel, full: string, empty: string)
    requires Records(env, r, full) != [] && Records(env, r, empty) == []
    ensures var one := Put(env, Db(map[], map[], 0, 0), r, full, false);
            var two := Put(env, one, r, empty, true);
            && one.state == two.state == map[r := EntryFor(env, r, full)]
            && !Present(two, r)
  {
    hide Records, With;
    var one := Put(env, Db(map[], map[], 0, 0), r, full, false);
    var two := Put(env, one, r, empty, true);
    var id := two.state[r].ids[0];
    assert id in StateIds(two.state, r);
  }

  lemma LostRounds(env: Env, r: Rel, full: string, empty: string, a: Round, b: Round, c: Round)
    requires env.hash(full) != env.hash(empty)
    requires Records(env, r, full) != [] && Records(env, r, empty) == []
    requires a == Round(map[r := full], Changes([r], [], []))
    requires b == Round(map[r := empty], Changes([], [r], []))
    requires c == Round(map[r := full], Changes([], [], []))
    ensures var two := Put(env, Put(env, Db(map[], map[], 0, 0), r, full, false), r, empty, true);
            && Runs(env, map[], [a, b]) && Reached(env, map[], [a, b]) == two
            && Runs(env, map[], [a, b, c])
            && Reached(env, map[], [a, b, c]) == Refreshed(env, two, c.files, c.ch)
  {
    hide Records, Put, Refreshed, Exact, EntryFor;
    var none := Db(map[], map[], 0, 0);
    var one := Put(env, none, r, full, false);
    RefreshOne(env, none, r, full);
    RefreshOne(env, one, r, empty);
    OneFileChanges(env, r, full, empty);
    StaleEntry(env, r, full, empty);
    assert Reached(env, map[], []) == none;
    ReachedMore(env, map[], [], a);
    assert [] + [a] == [a];
    ReachedMore(env, map[], [a], b);
    assert [a] + [b] == [a, b];
    ReachedMore(env, map[], [a, b], c);
    assert [a, b] + [c] == [a, b, c];
  }

  /** A file that yields nothing for one refresh and is then restored is taken for unchanged,
      and its records stay out of the index. */
  lemma RestoredFileIsLost(env: Env, r: Rel, full: string, empty: string) returns (rounds: seq<Round>)
    requires Numbered(env) && Injective(env)
    requires Records(env, r, full) != [] && Records(env, r, empty) == []
    ensures |rounds| == 3 && Runs(env, map[], rounds) && rounds[2].files == map[r := full]
    ensures !Agree(env, Reached(env, map[], rounds).index, rounds[2].files)
  {
    hide Agree, Records, Put, Refreshed, Exact, Runs, Reached, Present, EntryFor, Numbered;
    var a := Round(map[r := full], Changes([r], [], []));
    var b := Round(map[r := empty], Changes([], [r], []));
    var c := Round(map[r := full], Changes([], [], []));
    rounds := [a, b, c];
    LostRounds(env, r, full, empty, a, b, c);
    OneFileChanges(env, r, full, empty);
    StaleEntry(env, r, full, empty);
    var two := Reached(env, map[], [a, b]);
    var live := RunTracked(env, map[], [a, b]);
    RefreshIsRebuild(env, two, live, c.files, c.ch);
  }

  // ---- What the counters count ----------------------------------------------

  /** The ids the state lists for these files. */
  function ListedIds(state: map<Rel, Entry>, rs: seq<Rel>): nat {
    if rs == [] then 0 else ListedIds(state, rs[..|rs|-1]) + |StateIds(state, rs[|rs|-1])|
  }

  /** The records these files yield. */
  function Yielded(env: Env, files: map<Rel, string>, rs: seq<Rel>): nat
    requires forall r :: r in rs ==> r in files
  {
    if rs == [] then 0 else Yielded(env, files, rs[..|rs|-1]) + |Records(env, rs[|rs|-1], files[rs[|rs|-1]])|
  }

  lemma {:induction false} DropCounts(db: Db, rs: seq<Rel>)
    requires NoRepeats(rs)
    ensures var d := DropAll(db, rs);
            && d.added == db.added && d.removed == db.removed + ListedIds(db.state, rs)
            && forall r :: r !in rs ==> StateIds(d.state, r) == StateIds(db.state, r)
  {
    hide Without;
    if rs != [] {
      var n := |rs| - 1;
      DropCounts(db, rs[..n]);
      assert rs[n] !in rs[..n];
      assert rs == rs[..n] + [rs[n]];
    }
  }

  lemma PutCountsOne(env: Env, db: Db, r: Rel, content: string, modified: bool)
    ensures var d := Put(env, db, r, content, modified);
            && d.added == db.added + |Records(env, r, content)|
            && d.removed == db.removed + (if modified then |StateIds(db.state, r)| else 0)
            && forall q :: q != r ==> StateIds(d.state, q) == StateIds(db.state, q)
  {
    hide Without, With, Records;
  }

  lemma {:induction false} PutCounts(env: Env, db: Db, rs: seq<Rel>, files: map<Rel, string>, modified: seq<Rel>, k: nat)
    requires NoRepeats(rs) && (forall r :: r in rs ==> r in files) && k <= |rs|
    requires forall i :: 0 <= i < |rs| ==> (rs[i] in modified <==> i >= k)
    ensures var d := PutAll(env, db, rs, files, modified);
            && d.added == db.added + Yielded(env, files, rs)
            && d.removed == db.removed + ListedIds(db.state, rs[k..])
            && forall r :: r !in rs ==> StateIds(d.state, r) == StateIds(db.state, r)
  {
    hide Put, Records;
    if rs != [] {
      var n := |rs| - 1;
      PutCountsOne(env, PutAll(env, db, rs[..n], files, modified), rs[n], files[rs[n]], rs[n] in modified);
      assert rs == rs[..n] + [rs[n]] && rs[n] !in rs[..n];
      if k <= n {
        PutCounts(env, db, rs[..n], files, modified, k);
        assert rs[k..][..|rs[k..]|-1] == rs[..n][k..] && rs[k..][|rs[k..]|-1] == rs[n];
      } else {
        PutCounts(env, db, rs[..n], files, modified, n);
        assert rs[k..] == [] && rs[..n][n..] == [];
      }
    }
  }

  /** A refresh counts as added every record its new and modified files yield, and as removed every
      id the state lists for its deleted and modified files. */
  lemma RefreshCounts(env: Env, db: Db, files: map<Rel, string>, ch: Changes)
    requires Exact(env, db.state, files, ch)
    ensures forall r :: r in ch.created + ch.modified ==> r in files
    ensures var after := Refreshed(env, db, files, ch);
            && after.added - db.added == Yielded(env, files, ch.created + ch.modified)
            && after.removed - db.removed == ListedIds(db.state, ch.deleted) + ListedIds(db.state, ch.modified)
  {
    hide Records, PutAll, DropAll, Yielded;
    var todo := ch.created + ch.modified;
    TodoOnce(env, db.state, files, ch);
    DropCounts(db, ch.deleted);
    var d := DropAll(db, ch.deleted);
    forall i | 0 <= i < |todo| ensures todo[i] in ch.modified <==> i >= |ch.created| {
      if i < |ch.created| { assert ch.created[i] in ch.created; } else { assert ch.modified[i - |ch.created|] in ch.modified; }
    }
    PutCounts(env, d, todo, files, ch.modified, |ch.created|);
    assert todo[|ch.created|..] == ch.modified;
    ListedSame(db.state, d.state, ch.modified);
  }

  lemma {:induction false} ListedSame(a: map<Rel, Entry>, b: map<Rel, Entry>, rs: seq<Rel>)
    requires forall r :: r in rs ==> StateIds(a, r) == StateIds(b, r)
    ensures ListedIds(a, rs) == ListedIds(b, rs)
  {
    if rs != [] { ListedSame(a, b, rs[..|rs|-1]); }
  }
}
