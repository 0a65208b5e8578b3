/** Runs of the disk protocol that reach more than one commit of a delta, and therefore the
    exact condition under which every run ends as an uninterrupted one does. */
module ReviewRuns {
  import opened Options
  import opened ReviewModel
  import opened ReviewEngine
  import opened ReviewReplay
  import opened ReviewIocs
  import opened ReviewConvergence
  import opened ReviewCrash

  // ---- What one attempt writes ----------------------------------------------

  /** The case files with all three saves done. */
  function Saved(lay: Layout, d: Disk, w: Work): Disk {
    var e := d.(findings := Part(w.items, lay.findings)).(timeline := Part(w.items, lay.timeline));
    if SavesIocs(lay, w) then e.(iocs := Part(w.items, lay.iocs)) else e
  }

  lemma PartAt(items: map<ItemId, Item>, ids: seq<ItemId>, id: ItemId)
    requires forall i :: i in ids ==> i in items
    ensures id in Part(items, ids) <==> id in ids
    ensures id in ids ==> Part(items, ids)[id] == items[id]
  {
  }

  lemma SavedFits(lay: Layout, d: Disk, w: Work)
    requires Fits(lay, d) && forall i :: i in lay.All() ==> i in w.items
    ensures Fits(lay, Saved(lay, d, w))
  {
    hide SavesIocs, Part;
    var e := Saved(lay, d, w);
    forall id
      ensures (id in e.findings <==> id in lay.findings) && (id in e.timeline <==> id in lay.timeline)
      ensures id in e.iocs <==> id in lay.iocs
    {
      PartAt(w.items, lay.findings, id);
      PartAt(w.items, lay.timeline, id);
      PartAt(w.items, lay.iocs, id);
    }
  }

  lemma SavedAt(lay: Layout, d: Disk, w: Work, id: ItemId)
    requires Fits(lay, d) && Distinct(lay.All()) && (forall i :: i in lay.All() ==> i in w.items)
    requires !SavesIocs(lay, w) ==> forall i :: i in lay.iocs ==> i in d.iocs && d.iocs[i] == w.items[i]
    ensures id in Load(Saved(lay, d, w)) <==> id in lay.All()
    ensures id in lay.All() ==> Load(Saved(lay, d, w))[id] == w.items[id]
  {
    hide SavesIocs, Part, Load, Fits;
    SavedFits(lay, d, w);
    LoadAt(lay, Saved(lay, d, w), id);
    PartAt(w.items, lay.findings, id);
    PartAt(w.items, lay.timeline, id);
    PartAt(w.items, lay.iocs, id);
  }

  /** Saving writes the outcome of the commit, no more and no less. */
  lemma SavedIsOutcome(env: Env, st: Stamp, lay: Layout, es: seq<Entry>, d: Disk)
    requires Fits(lay, d) && WellFormed(lay, Load(d)) && Commit(env, st, lay, Load(d), es).Some?
    ensures var w := Commit(env, st, lay, Load(d), es).value;
            Fits(lay, Saved(lay, d, w)) && Load(Saved(lay, d, w)) == w.items
  {
    hide Commit, SavesIocs, Load, Saved, Fits;
    var w := Commit(env, st, lay, Load(d), es).value;
    SavedFits(lay, d, w);
    if !SavesIocs(lay, w) {
      forall id | id in lay.iocs ensures id in d.iocs && d.iocs[id] == w.items[id] {
        UnsavedOnDisk(env, st, lay, es, d, id);
      }
    }
    var m := Load(Saved(lay, d, w));
    forall id ensures (id in m <==> id in w.items) && (id in m ==> m[id] == w.items[id]) { SavedAt(lay, d, w, id); }
    assert m == w.items;
  }

  lemma ThreeSaves(env: Env, lay: Layout, caseId: string, s: System)
    requires Steady(lay, s) && s.phase.SaveFindings?
    ensures Run(env, lay, caseId, s, [Save, Save, Save]) ==
            System(Saved(lay, s.disk, s.phase.w), Logging(s.phase.w.log))
  {
    hide Fits, Load, Part, SavesIocs, Run, Steady;
    RunEmpty(env, lay, caseId, s);
    RunNext(env, lay, caseId, s, [], Save);
    RunNext(env, lay, caseId, s, [Save], Save);
    RunNext(env, lay, caseId, s, [Save, Save], Save);
    assert [] + [Save] == [Save] && [Save] + [Save] == [Save, Save] && [Save, Save] + [Save] == [Save, Save, Save];
  }

  /** Recovery and the lock, from a delta waiting in either place. */
  ghost predicate Waits(d: Disk, delta: Delta) {
    (d.pending == Some(delta) && d.processing.None?) || (d.pending.None? && d.processing == Some(delta))
  }

  function Taken(d: Disk, delta: Delta): Disk {
    d.(pending := None, processing := Some(delta))
  }

  lemma TakesLock(env: Env, lay: Layout, caseId: string, d: Disk, delta: Delta)
    requires Fits(lay, d) && Waits(d, delta)
    ensures Run(env, lay, caseId, System(d, Idle), [Recover, Lock]) == System(Taken(d, delta), Locked)
  {
    hide Fits, Run;
    var s := System(d, Idle);
    RunEmpty(env, lay, caseId, s);
    RunNext(env, lay, caseId, s, [], Recover);
    RunNext(env, lay, caseId, s, [Recover], Lock);
    assert [] + [Recover] == [Recover] && [Recover] + [Lock] == [Recover, Lock];
  }

  /** An attempt up to its last save. */
  function Writing(st: Stamp): seq<Event> {
    [Recover, Lock] + [Compute(st)] + [Save, Save, Save]
  }

  /** It leaves the outcome on disk, the delta in processing and the log still to write. */
  lemma Writes(env: Env, st: Stamp, lay: Layout, caseId: string, d: Disk, delta: Delta)
    requires Fits(lay, d) && WellFormed(lay, Load(d)) && Waits(d, delta)
    requires Attempt(env, st, lay, caseId, d, delta).Some?
    ensures var w := Attempt(env, st, lay, caseId, d, delta).value;
            var r := Run(env, lay, caseId, System(d, Idle), Writing(st));
            && r == System(Saved(lay, Taken(d, delta), w), Logging(w.log))
            && Fits(lay, r.disk) && Load(r.disk) == w.items
  {
    hide Fits, Run, Commit, Load, Saved, WellFormed;
    var s := System(d, Idle);
    var t := Taken(d, delta);
    SameFiles(d, t);
    SameFits(lay, d, t);
    TakesLock(env, lay, caseId, d, delta);
    RunNext(env, lay, caseId, s, [Recover, Lock], Compute(st));
    var p := [Recover, Lock] + [Compute(st)];
    var w := Attempt(env, st, lay, caseId, d, delta).value;
    assert Run(env, lay, caseId, s, p) == System(t, SaveFindings(w));
    RunMore(env, lay, caseId, s, p, [Save, Save, Save]);
    ThreeSaves(env, lay, caseId, System(t, SaveFindings(w)));
    SavedIsOutcome(env, st, lay, delta.entries, t);
  }

  /** An attempt cut off between its last save and the log. */
  function CutAttempt(st: Stamp): seq<Event> {
    Writing(st) + [Crash]
  }

  lemma CutWrites(env: Env, st: Stamp, lay: Layout, caseId: string, d: Disk, delta: Delta)
    requires Fits(lay, d) && WellFormed(lay, Load(d)) && Waits(d, delta)
    requires Attempt(env, st, lay, caseId, d, delta).Some?
    ensures var r := Run(env, lay, caseId, System(d, Idle), CutAttempt(st));
            && r.phase.Idle? && r.disk.pending.None? && r.disk.processing == Some(delta) && r.disk.log == d.log
            && Fits(lay, r.disk) && Load(r.disk) == Attempt(env, st, lay, caseId, d, delta).value.items
  {
    hide Fits, Run, Attempt, Load, WellFormed, Writing;
    Writes(env, st, lay, caseId, d, delta);
    CrashRests(env, lay, caseId, System(d, Idle), Writing(st));
  }

  /** An attempt left alone writes the outcome and the log, and the delta waits nowhere. */
  lemma WholeWrites(env: Env, st: Stamp, lay: Layout, caseId: string, d: Disk, delta: Delta) returns (n: nat)
    requires Fits(lay, d) && WellFormed(lay, Load(d)) && Waits(d, delta)
    requires Attempt(env, st, lay, caseId, d, delta).Some?
    ensures var w := Attempt(env, st, lay, caseId, d, delta).value;
            var r := Run(env, lay, caseId, System(d, Idle), WholeAttempt(st, n));
            && r.phase.Idle? && r.disk.pending.None? && r.disk.processing.None? && r.disk.log == d.log + w.log
            && Load(r.disk) == w.items
  {
    hide Fits, Run, Attempt, Load, WellFormed, Saved, Appends;
    var s := System(d, Idle);
    var w := Attempt(env, st, lay, caseId, d, delta).value;
    Writes(env, st, lay, caseId, d, delta);
    SavedKeepsRest(lay, Taken(d, delta), w);
    var u := Run(env, lay, caseId, s, Writing(st));
    n := |w.log|;
    LogsOut(env, lay, caseId, u);
    var rest := Appends(n) + [Append(true), Unlink];
    RunMore(env, lay, caseId, s, Writing(st), rest);
    assert Writing(st) + rest == WholeAttempt(st, n);
    SameFiles(u.disk, Run(env, lay, caseId, u, rest).disk);
  }

  lemma SavedKeepsRest(lay: Layout, d: Disk, w: Work)
    ensures var e := Saved(lay, d, w); e.log == d.log && e.pending == d.pending && e.processing == d.processing
  {
  }

  lemma LogsOut(env: Env, lay: Layout, caseId: string, s: System)
    requires Steady(lay, s) && s.phase.Logging?
    ensures Run(env, lay, caseId, s, Appends(|s.phase.rest|) + [Append(true), Unlink]) ==
            System(s.disk.(log := s.disk.log + s.phase.rest, processing := None), Idle)
  {
    hide Fits, Run, Steady;
    var n := |s.phase.rest|;
    LogWritten(env, lay, caseId, s, n);
    assert s.phase.rest[..n] == s.phase.rest && s.phase.rest[n..] == [];
    RunNext(env, lay, caseId, s, Appends(n), Append(true));
    RunNext(env, lay, caseId, s, Appends(n) + [Append(true)], Unlink);
    assert Appends(n) + [Append(true)] + [Unlink] == Appends(n) + [Append(true), Unlink];
  }

  // ---- Once and twice -------------------------------------------------------

  lemma FirstCommit(env: Env, st: Stamp, lay: Layout, caseId: string, d: Disk, delta: Delta)
    requires Waiting(env, st, lay, caseId, d, delta)
    ensures var p := Planned(env, st, lay, caseId, d, delta);
            && WellFormed(lay, Load(d)) && Attempt(env, st, lay, caseId, d, delta).value.items == Commits(p, 1)
  {
    hide Standing, Replayable, Commit, Load;
    var p := Planned(env, st, lay, caseId, d, delta);
    StandingDistinct(lay, Load(d));
    assert Commits(p, 0) == p.items;
  }

  /** The uninterrupted run ends with one commit of the delta. */
  lemma OnceThrough(env: Env, st: Stamp, lay: Layout, caseId: string, d: Disk, delta: Delta) returns (n: nat)
    requires Waiting(env, st, lay, caseId, d, delta)
    ensures var u := Run(env, lay, caseId, System(d, Idle), WholeAttempt(st, n)).disk;
            && u.pending.None? && u.processing.None?
            && Load(u) == Commits(Planned(env, st, lay, caseId, d, delta), 1)
  {
    hide Run, Attempt, WholeAttempt, Planned, Commits, Standing, Replayable;
    FirstCommit(env, st, lay, caseId, d, delta);
    n := WholeWrites(env, st, lay, caseId, d, delta);
  }

  /** What the second commit of a delta logs. */
  ghost function SecondLog(p: Plan): seq<LogRecord>
    requires WellFormed(p.lay, p.items)
  {
    match Commit(p.env, p.st, p.lay, Commits(p, 1), p.es)
    case None => []
    case Some(w) => w.log
  }

  /** A second commit of the delta goes through. */
  lemma SecondCommit(p: Plan)
    requires Sound(p)
    ensures Commit(p.env, p.st, p.lay, Commits(p, 1), p.es).Some?
    ensures Commit(p.env, p.st, p.lay, Commits(p, 1), p.es).value.items == Commits(p, 2)
  {
    hide Erase, Commit, Standing, Replayable, WellFormed, Stage;
    StandingDistinct(p.lay, p.items);
    CommitsAreStages(p, 1);
    forall id | id in p.items ensures Ahead(p, id, Commits(p, 1)[id], 0) {
      assert Erase(Commits(p, 1)[id]) == Erase(Stage(p, id, 1));
    }
    ReplayAdvances(p, p.st, Commits(p, 1));
  }

  /** A crash between the last save and the log ends, after the next attempt, with two. */
  lemma CutThenWhole(env: Env, st: Stamp, lay: Layout, caseId: string, d: Disk, delta: Delta) returns (n: nat)
    requires Waiting(env, st, lay, caseId, d, delta)
    ensures var p := Planned(env, st, lay, caseId, d, delta);
            var u := Run(env, lay, caseId, System(d, Idle), CutAttempt(st) + WholeAttempt(st, n)).disk;
            && u.pending.None? && u.processing.None? && Load(u) == Commits(p, 2) && u.log == d.log + SecondLog(p)
  {
    hide Run, WholeAttempt, CutAttempt, Commits, Commit, Standing, Replayable, Load, WellFormed;
    var p := Planned(env, st, lay, caseId, d, delta);
    var s := System(d, Idle);
    FirstCommit(env, st, lay, caseId, d, delta);
    CutWrites(env, st, lay, caseId, d, delta);
    var cut := Run(env, lay, caseId, s, CutAttempt(st));
    SecondCommit(p);
    SameKeysFit(lay, p.items, Load(cut.disk));
    n := WholeWrites(env, st, lay, caseId, cut.disk, delta);
    RunMore(env, lay, caseId, s, CutAttempt(st), WholeAttempt(st, n));
  }

  lemma SameKeysFit(lay: Layout, a: map<ItemId, Item>, b: map<ItemId, Item>)
    requires WellFormed(lay, a) && b.Keys == a.Keys
    ensures WellFormed(lay, b)
  {
  }

  // ---- Which runs end alike -------------------------------------------------

  /** If the run leaves the delta nowhere, it leaves the item as one commit does. */
  ghost predicate EndsAsOne(env: Env, st: Stamp, lay: Layout, caseId: string, d: Disk, delta: Delta,
                            id: ItemId, evs: seq<Event>)
    requires Waiting(env, st, lay, caseId, d, delta) && id in Load(d)
  {
    var u := Run(env, lay, caseId, System(d, Idle), evs).disk;
    u.pending.None? && u.processing.None? ==>
      id in Load(u) && Erase(Load(u)[id]) == Erase(Commits(Planned(env, st, lay, caseId, d, delta), 1)[id])
  }

  /** Every run that leaves the delta nowhere ends an item that converges as one commit does. */
  lemma ConvergingEndsAsOne(env: Env, st: Stamp, lay: Layout, caseId: string, d: Disk, delta: Delta,
                            id: ItemId, evs: seq<Event>)
    requires Waiting(env, st, lay, caseId, d, delta) && id in Load(d)
    requires Converging(Planned(env, st, lay, caseId, d, delta), id)
    ensures EndsAsOne(env, st, lay, caseId, d, delta, id, evs)
  {
    hide Run, Waiting, Erase, Commits, Converging, Load, Planned;
    CrashReplayConverges(env, st, lay, caseId, d, delta, evs);
  }

  /** The condition is exact on runs: whatever crashes and exceptions come, every run that leaves
      the delta nowhere ends a decided IOC as one commit does if and only if its decision repeats. */
  lemma RunsConvergeExactly(env: Env, st: Stamp, lay: Layout, caseId: string, d: Disk, delta: Delta, e: Entry)
    requires Waiting(env, st, lay, caseId, d, delta) && Injective(env)
    requires e in delta.entries && e.id in Load(d) && IsIocId(e.id)
    ensures (forall evs :: EndsAsOne(env, st, lay, caseId, d, delta, e.id, evs)) <==>
            Repeats(env, e, Load(d)[e.id], SourcesFor(Planned(env, st, lay, caseId, d, delta), e.id))
  {
    hide Run, Waiting, Erase, Commits, Load, Repeats, Injective, Standing, Replayable, Commit, SourcesFor;
    var p := Planned(env, st, lay, caseId, d, delta);
    PlanIs(env, st, lay, caseId, d, delta);
    ConvergesExactly(p, e);
    if Repeats(env, e, p.items[e.id], SourcesFor(p, e.id)) {
      OneDecision(p, e);
      forall evs ensures EndsAsOne(env, st, lay, caseId, d, delta, e.id, evs) {
        ConvergingEndsAsOne(env, st, lay, caseId, d, delta, e.id, evs);
      }
    } else {
      var n := CutThenWhole(env, st, lay, caseId, d, delta);
      assert !EndsAsOne(env, st, lay, caseId, d, delta, e.id, CutAttempt(st) + WholeAttempt(st, n));
    }
  }

  lemma PlanIs(env: Env, st: Stamp, lay: Layout, caseId: string, d: Disk, delta: Delta)
    requires Waiting(env, st, lay, caseId, d, delta)
    ensures var p := Planned(env, st, lay, caseId, d, delta);
            p.env == env && p.st == st && p.lay == lay && p.items == Load(d) && p.es == delta.entries
    ensures WellFormed(lay, Load(d))
  {
    hide Load, Replayable, Commit;
  }

  lemma OneDecision(p: Plan, e: Entry)
    requires Sound(p) && e in p.es && e.id in p.items
    requires Repeats(p.env, e, p.items[e.id], SourcesFor(p, e.id))
    ensures Converging(p, e.id)
  {
    hide Repeats, SourcesFor, Commit, Standing, ReplayableAll;
    StandingDistinct(p.lay, p.items);
    forall f | f in p.es && f.id == e.id ensures f == e { OnlyOne(p.es, e, f); }
  }
}
