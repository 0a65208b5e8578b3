/** The commit's disk protocol: the delta moves from pending to processing by a rename, the
    three case files are saved one after the other, the log is appended to line by line and
    the processing file is removed last. Every rename, write and removal is one step, and a
    crash or an exception may come between any two. */
module ReviewCrash {
  import opened Options
  import opened ReviewModel
  import opened ReviewEngine
  import opened ReviewReplay
  import opened ReviewIocs
  import opened ReviewConvergence

  datatype Delta = Delta(caseId: string, entries: seq<Entry>)

  datatype Disk = Disk(findings: map<ItemId, Item>, timeline: map<ItemId, Item>, iocs: map<ItemId, Item>,
                       log: seq<LogRecord>, pending: Option<Delta>, processing: Option<Delta>)

  /** Where the commit stands; what it computed is lost when it stops. */
  datatype Phase =
    | Idle
    | Recovered
    | Locked
    | SaveFindings(w: Work)
    | SaveTimeline(w: Work)
    | SaveIocs(w: Work)
    | Logging(rest: seq<LogRecord>)
    | Finished

  datatype System = System(disk: Disk, phase: Phase)

  datatype Event = Recover | Lock | Compute(st: Stamp) | Save | Append(written: bool) | Unlink | Crash | Raise

  function Load(d: Disk): map<ItemId, Item> {
    d.findings + d.timeline + d.iocs
  }

  function Part(items: map<ItemId, Item>, ids: seq<ItemId>): map<ItemId, Item> {
    map id | id in ids && id in items :: items[id]
  }

  /** Each case file holds exactly the ids the layout lists for it. */
  ghost predicate Fits(lay: Layout, d: Disk) {
    && (forall id :: id in d.findings <==> id in lay.findings)
    && (forall id :: id in d.timeline <==> id in lay.timeline)
    && (forall id :: id in d.iocs <==> id in lay.iocs)
  }

  /** What the delta makes of the case files; None when it is refused or raises. */
  function Attempt(env: Env, st: Stamp, lay: Layout, caseId: string, d: Disk, delta: Delta): (r: Option<Work>)
    requires Fits(lay, d)
    ensures r.Some? ==> r == Commit(env, st, lay, Load(d), delta.entries)
  {
    if delta.caseId != "" && caseId != "" && delta.caseId != caseId then None
    else Commit(env, st, lay, Load(d), delta.entries)
  }

  /** The exception handler: the delta goes back to pending. */
  function Restored(d: Disk): Disk {
    if d.processing.Some? && d.pending.None? then d.(pending := d.processing, processing := None) else d
  }

  predicate Working(p: Phase) {
    !p.Idle? && !p.Recovered?
  }

  function Step(env: Env, lay: Layout, caseId: string, s: System, ev: Event): (r: System)
    requires Fits(lay, s.disk)
  {
    var d := s.disk;
    match ev
    case Recover =>
      if !s.phase.Idle? then s
      else if d.processing.None? then System(d, Recovered)
      else if d.pending.Some? then System(d.(processing := None), Recovered)
      else System(d.(pending := d.processing, processing := None), Recovered)
    case Lock =>
      if !s.phase.Recovered? then s
      else if d.pending.None? then System(d, Idle)
      else System(d.(processing := d.pending, pending := None), Locked)
    case Compute(st) =>
      if !s.phase.Locked? || d.processing.None? then s
      else
        (match Attempt(env, st, lay, caseId, d, d.processing.value)
         case None => System(Restored(d), Idle)
         case Some(w) => System(d, SaveFindings(w)))
    case Save =>
      (match s.phase
       case SaveFindings(w) => System(d.(findings := Part(w.items, lay.findings)), SaveTimeline(w))
       case SaveTimeline(w) => System(d.(timeline := Part(w.items, lay.timeline)), SaveIocs(w))
       case SaveIocs(w) =>
         System(if SavesIocs(lay, w) then d.(iocs := Part(w.items, lay.iocs)) else d, Logging(w.log))
       case _ => s)
    case Append(written) =>
      if !s.phase.Logging? then s
      else if s.phase.rest == [] then System(d, Finished)
      else System(if written then d.(log := d.log + [s.phase.rest[0]]) else d, Logging(s.phase.rest[1..]))
    case Unlink =>
      if !s.phase.Finished? then s else System(d.(processing := None), Idle)
    case Crash => System(d, Idle)
    case Raise =>
      if Working(s.phase) then System(Restored(d), Idle) else System(d, Idle)
  }

  ghost predicate SameCase(d: Disk, e: Disk) {
    e.findings == d.findings && e.timeline == d.timeline && e.iocs == d.iocs
  }

  // ---- What single steps do to the delta ------------------------------------

  /** Recovery leaves nothing in processing: what was there becomes pending, unless a newer
      delta is. */
  lemma RecoveryKeepsTheNewest(env: Env, lay: Layout, caseId: string, s: System)
    requires Fits(lay, s.disk) && s.phase.Idle?
    ensures var r := Step(env, lay, caseId, s, Recover);
            && r.phase.Recovered? && r.disk.processing.None?
            && (s.disk.pending.Some? ==> r.disk.pending == s.disk.pending)
            && (s.disk.pending.None? ==> r.disk.pending == s.disk.processing)
            && SameCase(s.disk, r.disk) && r.disk.log == s.disk.log
  {
  }

  /** An exception puts the delta back to pending and changes nothing else. */
  lemma ExceptionRestores(env: Env, lay: Layout, caseId: string, s: System, delta: Delta)
    requires Fits(lay, s.disk) && Working(s.phase)
    requires s.disk.processing == Some(delta) && s.disk.pending.None?
    ensures Step(env, lay, caseId, s, Raise) == System(s.disk.(pending := Some(delta), processing := None), Idle)
  {
  }

  /** So does a delta that is refused or raises when it is computed. */
  lemma RefusalRestores(env: Env, st: Stamp, lay: Layout, caseId: string, s: System, delta: Delta)
    requires Fits(lay, s.disk) && s.phase.Locked?
    requires s.disk.processing == Some(delta) && s.disk.pending.None?
    requires Attempt(env, st, lay, caseId, s.disk, delta).None?
    ensures Step(env, lay, caseId, s, Compute(st)) ==
            System(s.disk.(pending := Some(delta), processing := None), Idle)
  {
    hide Fits, Commit, Load;
  }

  /** A delta is refused exactly when it is staged for another case, is empty, or raises. */
  lemma RefusedExactly(env: Env, st: Stamp, lay: Layout, caseId: string, d: Disk, delta: Delta)
    requires Fits(lay, d)
    ensures Attempt(env, st, lay, caseId, d, delta).None? <==>
              || (delta.caseId != "" && caseId != "" && delta.caseId != caseId)
              || delta.entries == []
              || Cascade(env, st, Reviewed(env, st, lay, Load(d), delta.entries), lay.iocs).None?
  {
    hide Cascade, Reviewed, Load;
  }

  /** A log line that is lost is passed over; one that is written comes last. */
  lemma AppendMeans(env: Env, lay: Layout, caseId: string, s: System, written: bool)
    requires Fits(lay, s.disk) && s.phase.Logging? && s.phase.rest != []
    ensures var r := Step(env, lay, caseId, s, Append(written));
            && r.phase == Logging(s.phase.rest[1..]) && r.disk == s.disk.(log := r.disk.log)
            && r.disk.log == (if written then s.disk.log + [s.phase.rest[0]] else s.disk.log)
  {
  }

  // ---- What every step keeps ------------------------------------------------

  /** The file's items stand where a complete commit or more of them leave them. */
  ghost predicate Landed(p: Plan, m: map<ItemId, Item>, ids: seq<ItemId>)
    requires WellFormed(p.lay, p.items)
  {
    forall id :: id in ids ==> id in p.items && id in m && Ahead(p, id, m[id], 1)
  }

  /** A computed outcome that is at least a complete commit, and whose IOCs are on disk
      already when they will not be saved. */
  ghost predicate Promises(p: Plan, d: Disk, w: Work)
    requires WellFormed(p.lay, p.items)
  {
    && w.items.Keys == p.items.Keys
    && (forall id :: id in p.items ==> Ahead(p, id, w.items[id], 1))
    && (!SavesIocs(p.lay, w) ==> forall id :: id in p.lay.iocs ==> id in w.items && id in d.iocs && d.iocs[id] == w.items[id])
  }

  ghost predicate PhaseOk(p: Plan, s: System)
    requires WellFormed(p.lay, p.items)
  {
    match s.phase
    case SaveFindings(w) => Promises(p, s.disk, w)
    case SaveTimeline(w) => Promises(p, s.disk, w) && Landed(p, Load(s.disk), p.lay.findings)
    case SaveIocs(w) =>
      Promises(p, s.disk, w) && Landed(p, Load(s.disk), p.lay.findings) && Landed(p, Load(s.disk), p.lay.timeline)
    case Logging(_) => Landed(p, Load(s.disk), p.lay.All())
    case Finished => Landed(p, Load(s.disk), p.lay.All())
    case _ => true
  }

  /** The delta waits in exactly one place until everything is written. */
  ghost predicate Placed(p: Plan, delta: Delta, s: System)
    requires WellFormed(p.lay, p.items)
  {
    var d := s.disk;
    if Working(s.phase) then d.pending.None? && d.processing == Some(delta)
    else
      || (d.pending == Some(delta) && d.processing.None?)
      || (s.phase.Idle? && d.pending.None? && d.processing == Some(delta))
      || (d.pending.None? && d.processing.None? && Landed(p, Load(d), p.lay.All()))
  }

  ghost predicate Inv(p: Plan, delta: Delta, s: System)
    requires WellFormed(p.lay, p.items)
  {
    && Fits(p.lay, s.disk)
    && Mixed(p, Load(s.disk))
    && PhaseOk(p, s)
    && Placed(p, delta, s)
  }

  lemma LoadAt(lay: Layout, d: Disk, id: ItemId)
    requires Fits(lay, d) && Distinct(lay.All())
    ensures id in Load(d) <==> id in lay.All()
    ensures id in lay.findings ==> Load(d)[id] == d.findings[id]
    ensures id in lay.timeline ==> Load(d)[id] == d.timeline[id]
    ensures id in lay.iocs ==> Load(d)[id] == d.iocs[id]
  {
    var all := lay.All();
    var n, t := |lay.findings|, |lay.findings| + |lay.timeline|;
    if id in lay.findings {
      var i :| 0 <= i < n && lay.findings[i] == id;
      assert all[i] == id;
    }
    if id in lay.timeline {
      var i :| 0 <= i < |lay.timeline| && lay.timeline[i] == id;
      assert all[n + i] == id;
    }
    if id in lay.iocs {
      var i :| 0 <= i < |lay.iocs| && lay.iocs[i] == id;
      assert all[t + i] == id;
    }
  }

  /** `e` is `d` with the items of one file replaced. */
  ghost predicate Rewritten(lay: Layout, d: Disk, e: Disk, ids: seq<ItemId>, w: Work) {
    && Fits(lay, e) && Load(e).Keys == Load(d).Keys
    && (forall id :: id in Load(d) && id in ids ==> id in w.items && Load(e)[id] == w.items[id])
    && (forall id :: id in Load(d) && id !in ids ==> Load(e)[id] == Load(d)[id])
  }

  lemma SavedFindings(lay: Layout, d: Disk, w: Work)
    requires Fits(lay, d) && Distinct(lay.All()) && w.items.Keys == Load(d).Keys
    ensures Rewritten(lay, d, d.(findings := Part(w.items, lay.findings)), lay.findings, w)
  {
    var e := d.(findings := Part(w.items, lay.findings));
    forall id ensures id in lay.findings ==> id in w.items { LoadAt(lay, d, id); }
    assert Fits(lay, e);
    Replaced(lay, d, e);
    forall id | id in Load(d)
      ensures Load(e)[id] == if id in lay.findings then w.items[id] else Load(d)[id]
    {
      LoadAt(lay, d, id);
      LoadAt(lay, e, id);
    }
  }

  lemma SavedTimeline(lay: Layout, d: Disk, w: Work)
    requires Fits(lay, d) && Distinct(lay.All()) && w.items.Keys == Load(d).Keys
    ensures Rewritten(lay, d, d.(timeline := Part(w.items, lay.timeline)), lay.timeline, w)
  {
    var e := d.(timeline := Part(w.items, lay.timeline));
    forall id ensures id in lay.timeline ==> id in w.items { LoadAt(lay, d, id); }
    assert Fits(lay, e);
    Replaced(lay, d, e);
    forall id | id in Load(d)
      ensures Load(e)[id] == if id in lay.timeline then w.items[id] else Load(d)[id]
    {
      LoadAt(lay, d, id);
      LoadAt(lay, e, id);
    }
  }

  lemma SavedIocs(lay: Layout, d: Disk, w: Work)
    requires Fits(lay, d) && Distinct(lay.All()) && w.items.Keys == Load(d).Keys
    ensures Rewritten(lay, d, d.(iocs := Part(w.items, lay.iocs)), lay.iocs, w)
  {
    var e := d.(iocs := Part(w.items, lay.iocs));
    forall id ensures id in lay.iocs ==> id in w.items { LoadAt(lay, d, id); }
    assert Fits(lay, e);
    Replaced(lay, d, e);
    forall id | id in Load(d)
      ensures Load(e)[id] == if id in lay.iocs then w.items[id] else Load(d)[id]
    {
      LoadAt(lay, d, id);
      LoadAt(lay, e, id);
    }
  }

  lemma Replaced(lay: Layout, d: Disk, e: Disk)
    requires Fits(lay, d) && Fits(lay, e)
    ensures Load(e).Keys == Load(d).Keys
  {
    assert d.findings.Keys == e.findings.Keys && d.timeline.Keys == e.timeline.Keys && d.iocs.Keys == e.iocs.Keys;
  }

  lemma Further(p: Plan, id: ItemId, x: Item)
    requires WellFormed(p.lay, p.items) && id in p.items && Ahead(p, id, x, 1)
    ensures Ahead(p, id, x, 0)
  {
    hide Erase, Stage;
    var k: nat :| k >= 1 && Erase(x) == Erase(Stage(p, id, k));
    assert k >= 0 && Erase(x) == Erase(Stage(p, id, k));
  }

  /** Saving one file lands it and leaves what landed before. */
  lemma SaveKeeps(p: Plan, d: Disk, e: Disk, ids: seq<ItemId>, w: Work)
    requires WellFormed(p.lay, p.items) && Mixed(p, Load(d)) && Rewritten(p.lay, d, e, ids, w)
    requires forall id :: id in ids ==> id in Load(d)
    requires w.items.Keys == p.items.Keys && forall id :: id in p.items ==> Ahead(p, id, w.items[id], 1)
    ensures Mixed(p, Load(e)) && Landed(p, Load(e), ids)
  {
    hide Ahead, Load, WellFormed;
    forall id | id in p.items ensures Ahead(p, id, Load(e)[id], 0) {
      if id in ids { Further(p, id, w.items[id]); }
    }
  }

  lemma SaveLeaves(p: Plan, d: Disk, e: Disk, ids: seq<ItemId>, w: Work, other: seq<ItemId>)
    requires WellFormed(p.lay, p.items)
    requires Rewritten(p.lay, d, e, ids, w) && Landed(p, Load(d), other) && Landed(p, Load(e), ids)
    ensures Landed(p, Load(e), other)
  {
    hide Ahead, Load;
  }

  lemma AllLanded(p: Plan, d: Disk)
    requires WellFormed(p.lay, p.items)
    requires Landed(p, Load(d), p.lay.findings) && Landed(p, Load(d), p.lay.timeline) && Landed(p, Load(d), p.lay.iocs)
    ensures Landed(p, Load(d), p.lay.All())
  {
    hide Ahead;
  }

  lemma InFile(lay: Layout, d: Disk)
    requires Fits(lay, d)
    ensures forall id :: id in lay.findings || id in lay.timeline || id in lay.iocs ==> id in Load(d)
  {
  }

  lemma SaveStepKeeps(p: Plan, caseId: string, delta: Delta, s: System)
    requires WellFormed(p.lay, p.items) && Inv(p, delta, s)
    ensures Inv(p, delta, Step(p.env, p.lay, caseId, s, Save))
  {
    hide SavesIocs, Mixed, Landed, Load, Part, Rewritten, Fits, Promises, Attempt, WellFormed;
    var d, e := s.disk, Step(p.env, p.lay, caseId, s, Save).disk;
    if s.phase.SaveFindings? {
      FindingsSaved(p, d, e, s.phase.w);
    } else if s.phase.SaveTimeline? {
      TimelineSaved(p, d, e, s.phase.w);
    } else if s.phase.SaveIocs? {
      IocsSaved(p, d, e, s.phase.w);
    }
  }

  lemma FindingsSaved(p: Plan, d: Disk, e: Disk, w: Work)
    requires WellFormed(p.lay, p.items) && Fits(p.lay, d) && Mixed(p, Load(d)) && Promises(p, d, w)
    requires e == d.(findings := Part(w.items, p.lay.findings))
    ensures Fits(p.lay, e) && Mixed(p, Load(e)) && Promises(p, e, w)
    ensures Landed(p, Load(e), p.lay.findings)
  {
    hide Ahead, SavesIocs, Mixed, Landed, Load, Part, Rewritten, Fits;
    MixedKeys(p, Load(d));
    SavedFindings(p.lay, d, w);
    InFile(p.lay, d);
    SaveKeeps(p, d, e, p.lay.findings, w);
    RewrittenFits(p.lay, d, e, p.lay.findings, w);
  }

  lemma TimelineSaved(p: Plan, d: Disk, e: Disk, w: Work)
    requires WellFormed(p.lay, p.items) && Fits(p.lay, d) && Mixed(p, Load(d)) && Promises(p, d, w)
    requires Landed(p, Load(d), p.lay.findings)
    requires e == d.(timeline := Part(w.items, p.lay.timeline))
    ensures Fits(p.lay, e) && Mixed(p, Load(e)) && Promises(p, e, w)
    ensures Landed(p, Load(e), p.lay.findings) && Landed(p, Load(e), p.lay.timeline)
  {
    hide Ahead, SavesIocs, Mixed, Landed, Load, Part, Rewritten, Fits;
    MixedKeys(p, Load(d));
    SavedTimeline(p.lay, d, w);
    InFile(p.lay, d);
    SaveKeeps(p, d, e, p.lay.timeline, w);
    SaveLeaves(p, d, e, p.lay.timeline, w, p.lay.findings);
    RewrittenFits(p.lay, d, e, p.lay.timeline, w);
  }

  lemma IocsSaved(p: Plan, d: Disk, e: Disk, w: Work)
    requires WellFormed(p.lay, p.items) && Fits(p.lay, d) && Mixed(p, Load(d)) && Promises(p, d, w)
    requires Landed(p, Load(d), p.lay.findings) && Landed(p, Load(d), p.lay.timeline)
    requires e == if SavesIocs(p.lay, w) then d.(iocs := Part(w.items, p.lay.iocs)) else d
    ensures Fits(p.lay, e) && Mixed(p, Load(e)) && Landed(p, Load(e), p.lay.All())
  {
    hide Ahead, SavesIocs, Mixed, Landed, Load, Part, Rewritten, Fits;
    if SavesIocs(p.lay, w) {
      MixedKeys(p, Load(d));
      SavedIocs(p.lay, d, w);
      InFile(p.lay, d);
      SaveKeeps(p, d, e, p.lay.iocs, w);
      SaveLeaves(p, d, e, p.lay.iocs, w, p.lay.findings);
      SaveLeaves(p, d, e, p.lay.iocs, w, p.lay.timeline);
      RewrittenFits(p.lay, d, e, p.lay.iocs, w);
    } else {
      UnsavedLanded(p, d, w);
    }
    AllLanded(p, e);
  }

  lemma MixedKeys(p: Plan, m: map<ItemId, Item>)
    requires WellFormed(p.lay, p.items) && Mixed(p, m)
    ensures m.Keys == p.items.Keys
  {
  }

  lemma RewrittenFits(lay: Layout, d: Disk, e: Disk, ids: seq<ItemId>, w: Work)
    requires Rewritten(lay, d, e, ids, w)
    ensures Fits(lay, e)
  {
  }

  lemma UnsavedLanded(p: Plan, d: Disk, w: Work)
    requires WellFormed(p.lay, p.items) && Fits(p.lay, d) && Promises(p, d, w) && !SavesIocs(p.lay, w)
    ensures Landed(p, Load(d), p.lay.iocs)
  {
    hide Ahead, SavesIocs;
    forall id | id in p.lay.iocs ensures id in p.items && id in Load(d) && Ahead(p, id, Load(d)[id], 1) {
      LoadAt(p.lay, d, id);
      assert d.iocs[id] == w.items[id];
    }
  }

  /** An outcome computed from whatever mixture the disk holds is a complete commit or more. */
  lemma ComputedAhead(p: Plan, m: map<ItemId, Item>, st: Stamp)
    requires Sound(p) && Mixed(p, m)
    ensures WellFormed(p.lay, m) && Commit(p.env, st, p.lay, m, p.es).Some?
    ensures forall id :: id in p.items ==> Ahead(p, id, Commit(p.env, st, p.lay, m, p.es).value.items[id], 1)
  {
    hide Erase, Commit, Standing, Replayable, WellFormed, Stage;
    StandingDistinct(p.lay, p.items);
    ReplayAdvances(p, st, m);
    var w := Commit(p.env, st, p.lay, m, p.es).value;
    forall id | id in p.items ensures Ahead(p, id, w.items[id], 1) {
      var k: nat :| Erase(m[id]) == Erase(Stage(p, id, k));
      assert Erase(w.items[id]) == Erase(Stage(p, id, k + 1));
    }
  }

  /** IOCs that will not be saved are on disk as computed. */
  lemma UnsavedOnDisk(env: Env, st: Stamp, lay: Layout, es: seq<Entry>, d: Disk, id: ItemId)
    requires Fits(lay, d) && WellFormed(lay, Load(d)) && Commit(env, st, lay, Load(d), es).Some?
    requires !SavesIocs(lay, Commit(env, st, lay, Load(d), es).value) && id in lay.iocs
    ensures id in d.iocs && d.iocs[id] == Commit(env, st, lay, Load(d), es).value.items[id]
  {
    hide SavesIocs, Commit, Load;
    LoadAt(lay, d, id);
    SkippedSaveLosesNothing(env, st, lay, Load(d), es, id);
  }

  lemma ComputedPromises(p: Plan, d: Disk, st: Stamp)
    requires Sound(p) && Fits(p.lay, d) && Mixed(p, Load(d))
    ensures Commit(p.env, st, p.lay, Load(d), p.es).Some?
    ensures Promises(p, d, Commit(p.env, st, p.lay, Load(d), p.es).value)
  {
    hide Ahead, SavesIocs, Commit, Standing, Replayable, Load, WellFormed, Fits;
    StandingDistinct(p.lay, p.items);
    ComputedAhead(p, Load(d), st);
    var w := Commit(p.env, st, p.lay, Load(d), p.es).value;
    if !SavesIocs(p.lay, w) {
      forall id | id in p.lay.iocs ensures id in w.items && id in d.iocs && d.iocs[id] == w.items[id] {
        ListedIoc(p.lay, Load(d), id);
        UnsavedOnDisk(p.env, st, p.lay, p.es, d, id);
      }
    }
  }

  lemma ListedIoc(lay: Layout, items: map<ItemId, Item>, id: ItemId)
    requires WellFormed(lay, items) && id in lay.iocs
    ensures id in items
  {
  }

  lemma ComputeStepKeeps(p: Plan, caseId: string, delta: Delta, s: System, st: Stamp)
    requires Sound(p) && p.es == delta.entries
    requires Inv(p, delta, s)
    ensures Inv(p, delta, Step(p.env, p.lay, caseId, s, Compute(st)))
  {
    hide Commit, Standing, Replayable, Landed, Load, Mixed, Fits, Promises;
    StandingDistinct(p.lay, p.items);
    SameFiles(s.disk, Restored(s.disk));
    SameFits(p.lay, s.disk, Restored(s.disk));
    ComputedPromises(p, s.disk, st);
  }

  lemma SameFiles(d: Disk, e: Disk)
    ensures SameCase(d, e) ==> Load(e) == Load(d)
  {
  }

  lemma SameFits(lay: Layout, d: Disk, e: Disk)
    requires Fits(lay, d)
    ensures SameCase(d, e) ==> Fits(lay, e)
  {
  }

  lemma OtherStepKeeps(p: Plan, caseId: string, delta: Delta, s: System, ev: Event)
    requires WellFormed(p.lay, p.items) && Inv(p, delta, s) && !ev.Save? && !ev.Compute?
    ensures Inv(p, delta, Step(p.env, p.lay, caseId, s, ev))
  {
    hide Ahead, SavesIocs, Mixed, Attempt, Part, Landed, Load, Fits, WellFormed;
    var r := Step(p.env, p.lay, caseId, s, ev);
    SameFiles(s.disk, r.disk);
    SameFits(p.lay, s.disk, r.disk);
  }

  // ---- Runs -----------------------------------------------------------------

  ghost predicate Steady(lay: Layout, s: System) {
    && Fits(lay, s.disk)
    && (s.phase.SaveFindings? || s.phase.SaveTimeline? || s.phase.SaveIocs? ==>
          forall id :: id in lay.All() ==> id in s.phase.w.items)
  }

  lemma StepSteady(env: Env, lay: Layout, caseId: string, s: System, ev: Event)
    requires Steady(lay, s)
    ensures Steady(lay, Step(env, lay, caseId, s, ev))
  {
    hide Commit, SavesIocs;
  }

  /** Any sequence of steps, crashes and exceptions, with as many attempts as it starts. */
  function Run(env: Env, lay: Layout, caseId: string, s: System, evs: seq<Event>): (r: System)
    requires Steady(lay, s)
    ensures Steady(lay, r)
  {
    if evs == [] then s
    else
      var u := Run(env, lay, caseId, s, evs[..|evs|-1]);
      StepSteady(env, lay, caseId, u, evs[|evs|-1]);
      Step(env, lay, caseId, u, evs[|evs|-1])
  }

  /** A case at rest, with a delta waiting that can be replayed and that one commit by
      `st0` would carry out. */
  ghost predicate Waiting(env: Env, st0: Stamp, lay: Layout, caseId: string, d: Disk, delta: Delta) {
    && Fits(lay, d) && Standing(lay, Load(d)) && Replayable(delta.entries)
    && ((d.pending == Some(delta) && d.processing.None?) || (d.pending.None? && d.processing == Some(delta)))
    && Attempt(env, st0, lay, caseId, d, delta).Some?
  }

  /** The commit the waiting delta asks for. */
  ghost function Planned(env: Env, st0: Stamp, lay: Layout, caseId: string, d: Disk, delta: Delta): (p: Plan)
    requires Waiting(env, st0, lay, caseId, d, delta)
    ensures Sound(p) && p.lay == lay && p.env == env && p.es == delta.entries && p.items == Load(d)
  {
    Plan(env, st0, lay, Load(d), delta.entries)
  }

  lemma {:induction false} RunKeeps(env: Env, st0: Stamp, lay: Layout, caseId: string, d: Disk, delta: Delta,
                                    evs: seq<Event>)
    requires Waiting(env, st0, lay, caseId, d, delta)
    ensures Inv(Planned(env, st0, lay, caseId, d, delta), delta, Run(env, lay, caseId, System(d, Idle), evs))
  {
    hide Waiting, Planned, Commit, Load, Standing, Replayable, Step, Inv;
    var p := Planned(env, st0, lay, caseId, d, delta);
    WaitingSteady(env, st0, lay, caseId, d, delta);
    StandingDistinct(lay, p.items);
    if evs == [] {
      StartOk(env, st0, lay, caseId, d, delta);
    } else {
      var n := |evs| - 1;
      RunKeeps(env, st0, lay, caseId, d, delta, evs[..n]);
      var u := Run(env, lay, caseId, System(d, Idle), evs[..n]);
      match evs[n]
      case Save => SaveStepKeeps(p, caseId, delta, u);
      case Compute(st) => ComputeStepKeeps(p, caseId, delta, u, st);
      case _ => OtherStepKeeps(p, caseId, delta, u, evs[n]);
    }
  }

  lemma StartOk(env: Env, st0: Stamp, lay: Layout, caseId: string, d: Disk, delta: Delta)
    requires Waiting(env, st0, lay, caseId, d, delta)
    ensures Inv(Planned(env, st0, lay, caseId, d, delta), delta, System(d, Idle))
  {
    hide Erase, Replayable, Landed, SavesIocs, Commit, Standing, Load, Stage;
    var p := Planned(env, st0, lay, caseId, d, delta);
    StandingDistinct(lay, p.items);
    forall id | id in p.items ensures Ahead(p, id, p.items[id], 0) {
      StageZero(p, id);
    }
  }

  /** The item stands where complete commits leave it: up to stamps and notes where one does,
      if it converges; up to its hash as well, if it is not revived; and where some number of
      them does, three at most, in any case. */
  ghost predicate Done(p: Plan, id: ItemId, x: Item)
    requires WellFormed(p.lay, p.items) && id in p.items
  {
    && (Converging(p, id) ==> Erase(x) == Erase(Commits(p, 1)[id]))
    && (!Revived(p, id) ==> Rough(x) == Rough(Commits(p, 1)[id]))
    && exists k :: 1 <= k <= 3 && Erase(x) == Erase(Commits(p, k)[id])
  }

  lemma AheadIsDone(p: Plan, id: ItemId, x: Item)
    requires Sound(p) && id in p.items && Ahead(p, id, x, 1)
    ensures Done(p, id, x)
  {
    hide Erase, Stage, Commits, Converging, Revived, Standing, Replayable, Commit;
    StandingDistinct(p.lay, p.items);
    var k: nat :| k >= 1 && Erase(x) == Erase(Stage(p, id, k));
    CommitsAreStages(p, k);
    CommitsAreStages(p, 3);
    ReplayConverges(p, id, k);
    var j := if k <= 3 then k else 3;
    assert 1 <= j <= 3 && Erase(x) == Erase(Commits(p, j)[id]);
  }

  /** Every item is the old one, up to stamps and notes, or done; the delta waits in exactly
      one of its two places, or in neither and everything is done. */
  ghost predicate NothingLost(p: Plan, delta: Delta, e: Disk)
    requires WellFormed(p.lay, p.items)
  {
    && Load(e).Keys == p.items.Keys
    && (forall id :: id in p.items ==> Erase(Load(e)[id]) == Erase(p.items[id]) || Done(p, id, Load(e)[id]))
    && (|| (e.pending == Some(delta) && e.processing.None?)
        || (e.pending.None? && e.processing == Some(delta))
        || (e.pending.None? && e.processing.None? && forall id :: id in p.items ==> Done(p, id, Load(e)[id])))
  }

  lemma AheadOrOld(p: Plan, id: ItemId, x: Item)
    requires Sound(p) && id in p.items && Ahead(p, id, x, 0)
    ensures Erase(x) == Erase(p.items[id]) || Done(p, id, x)
  {
    hide Erase, Stage, Done, Standing, Replayable, Commit;
    StandingDistinct(p.lay, p.items);
    var k: nat :| Erase(x) == Erase(Stage(p, id, k));
    if k == 0 { StageZero(p, id); } else { AheadIsDone(p, id, x); }
  }

  lemma InvLosesNothing(p: Plan, delta: Delta, s: System)
    requires Sound(p) && Inv(p, delta, s)
    ensures NothingLost(p, delta, s.disk)
  {
    hide Erase, Ahead, Done, Load, Standing, Replayable, Commit, PhaseOk, Fits;
    StandingDistinct(p.lay, p.items);
    var m := Load(s.disk);
    forall id | id in p.items ensures Erase(m[id]) == Erase(p.items[id]) || Done(p, id, m[id]) {
      AheadOrOld(p, id, m[id]);
    }
    if Landed(p, m, p.lay.All()) {
      forall id | id in p.items ensures Done(p, id, m[id]) {
        assert id in p.lay.All();
        AheadIsDone(p, id, m[id]);
      }
    }
  }

  /** Whatever crashes and exceptions interrupt however many attempts, nothing is lost, and
      once the delta waits nowhere everything is done. */
  lemma CrashReplayConverges(env: Env, st0: Stamp, lay: Layout, caseId: string, d: Disk, delta: Delta,
                             evs: seq<Event>)
    requires Waiting(env, st0, lay, caseId, d, delta)
    ensures NothingLost(Planned(env, st0, lay, caseId, d, delta), delta,
                        Run(env, lay, caseId, System(d, Idle), evs).disk)
  {
    hide Waiting, Planned, Run, Inv, NothingLost;
    WaitingSteady(env, st0, lay, caseId, d, delta);
    RunKeeps(env, st0, lay, caseId, d, delta, evs);
    InvLosesNothing(Planned(env, st0, lay, caseId, d, delta), delta, Run(env, lay, caseId, System(d, Idle), evs));
  }

  // ---- Finishing ------------------------------------------------------------

  lemma RunMore(env: Env, lay: Layout, caseId: string, s: System, a: seq<Event>, b: seq<Event>)
    requires Steady(lay, s)
    ensures Run(env, lay, caseId, s, a + b) == Run(env, lay, caseId, Run(env, lay, caseId, s, a), b)
  {
    hide Step;
    if b == [] {
      assert a + b == a;
    } else {
      RunMore(env, lay, caseId, s, a, b[..|b|-1]);
      assert (a + b)[..|a + b|-1] == a + b[..|b|-1];
    }
  }

  function Appends(n: nat): (r: seq<Event>)
    ensures |r| == n
  {
    if n == 0 then [] else Appends(n - 1) + [Append(true)]
  }

  lemma {:induction false} LogWritten(env: Env, lay: Layout, caseId: string, s: System, n: nat)
    requires Steady(lay, s) && s.phase.Logging? && n <= |s.phase.rest|
    ensures var r := Run(env, lay, caseId, s, Appends(n));
            && r.phase == Logging(s.phase.rest[n..])
            && r.disk == s.disk.(log := s.disk.log + s.phase.rest[..n])
  {
    hide Run, Steady, Attempt, SavesIocs, Part;
    var rest := s.phase.rest;
    if n == 0 {
      RunEmpty(env, lay, caseId, s);
      assert rest[..0] == [];
    } else {
      LogWritten(env, lay, caseId, s, n - 1);
      RunNext(env, lay, caseId, s, Appends(n - 1), Append(true));
      assert rest[n - 1..][1..] == rest[n..];
      assert rest[..n] == rest[..n - 1] + [rest[n - 1]];
    }
  }

  lemma RunNext(env: Env, lay: Layout, caseId: string, s: System, evs: seq<Event>, ev: Event)
    requires Steady(lay, s)
    ensures Run(env, lay, caseId, s, evs + [ev]) == Step(env, lay, caseId, Run(env, lay, caseId, s, evs), ev)
  {
    hide Step;
    assert (evs + [ev])[..|evs|] == evs;
  }

  /** Taking the lock, from any state at rest that still has the delta. */
  lemma LockTaken(env: Env, st0: Stamp, lay: Layout, caseId: string, d: Disk, delta: Delta, evs: seq<Event>)
    requires Waiting(env, st0, lay, caseId, d, delta)
    requires var u := Run(env, lay, caseId, System(d, Idle), evs);
             u.phase.Idle? && (u.disk.pending.Some? || u.disk.processing.Some?)
    ensures var v := Run(env, lay, caseId, System(d, Idle), evs + [Recover, Lock]);
            v.phase.Locked? && v.disk.processing == Some(delta)
  {
    hide Erase, Commit, Load, Standing, Replayable, Run, Mixed, Landed, Attempt, Fits;
    RunKeeps(env, st0, lay, caseId, d, delta, evs);
    RunNext(env, lay, caseId, System(d, Idle), evs, Recover);
    RunNext(env, lay, caseId, System(d, Idle), evs + [Recover], Lock);
    assert evs + [Recover] + [Lock] == evs + [Recover, Lock];
  }

  /** Under the lock the outcome can be computed. */
  lemma LockedComputes(env: Env, st0: Stamp, st: Stamp, lay: Layout, caseId: string, d: Disk, delta: Delta,
                       evs: seq<Event>)
    requires Waiting(env, st0, lay, caseId, d, delta)
    requires Run(env, lay, caseId, System(d, Idle), evs).phase.Locked?
    ensures Run(env, lay, caseId, System(d, Idle), evs + [Compute(st)]).phase.SaveFindings?
  {
    hide Erase, Commit, Load, Standing, Replayable, Run, Landed, Fits, PhaseOk;
    var u := Run(env, lay, caseId, System(d, Idle), evs);
    RunKeeps(env, st0, lay, caseId, d, delta, evs);
    RunNext(env, lay, caseId, System(d, Idle), evs, Compute(st));
    ReplayAdvances(Planned(env, st0, lay, caseId, d, delta), st, Load(u.disk));
  }

  lemma SavesThrough(env: Env, lay: Layout, caseId: string, s: System)
    requires Steady(lay, s) && s.phase.SaveFindings?
    ensures Run(env, lay, caseId, s, [Save, Save, Save]).phase.Logging?
  {
    hide Fits, Load, Part, SavesIocs, Run;
    RunNext(env, lay, caseId, s, [], Save);
    RunNext(env, lay, caseId, s, [Save], Save);
    RunNext(env, lay, caseId, s, [Save, Save], Save);
    assert [] + [Save] == [Save] && [Save] + [Save] == [Save, Save] && [Save, Save] + [Save] == [Save, Save, Save];
    RunEmpty(env, lay, caseId, s);
  }

  lemma RunEmpty(env: Env, lay: Layout, caseId: string, s: System)
    requires Steady(lay, s)
    ensures Run(env, lay, caseId, s, []) == s
  {
  }

  /** From the log on, an attempt left alone removes the processing file. */
  lemma LogsThrough(env: Env, lay: Layout, caseId: string, s: System)
    requires Steady(lay, s) && s.phase.Logging?
    ensures var r := Run(env, lay, caseId, s, Appends(|s.phase.rest|) + [Append(true), Unlink]);
            r.disk.processing.None? && r.disk.pending == s.disk.pending
  {
    hide Fits, Run;
    var n := |s.phase.rest|;
    LogWritten(env, lay, caseId, s, n);
    RunNext(env, lay, caseId, s, Appends(n), Append(true));
    RunNext(env, lay, caseId, s, Appends(n) + [Append(true)], Unlink);
    assert Appends(n) + [Append(true)] + [Unlink] == Appends(n) + [Append(true), Unlink];
  }

  lemma WorkingHoldsDelta(env: Env, st0: Stamp, lay: Layout, caseId: string, d: Disk, delta: Delta, evs: seq<Event>)
    requires Waiting(env, st0, lay, caseId, d, delta)
    requires Working(Run(env, lay, caseId, System(d, Idle), evs).phase)
    ensures Run(env, lay, caseId, System(d, Idle), evs).disk.pending.None?
  {
    hide Erase, Commit, Load, Standing, Replayable, Run, Mixed, Landed, Fits, PhaseOk, Attempt;
    RunKeeps(env, st0, lay, caseId, d, delta, evs);
  }

  /** An attempt left alone, from a state at rest that still has the delta. */
  function WholeAttempt(st: Stamp, n: nat): seq<Event> {
    [Recover, Lock] + [Compute(st)] + [Save, Save, Save] + (Appends(n) + [Append(true), Unlink])
  }

  lemma AttemptFinishes(env: Env, st0: Stamp, st: Stamp, lay: Layout, caseId: string, d: Disk, delta: Delta,
                        evs: seq<Event>) returns (n: nat)
    requires Waiting(env, st0, lay, caseId, d, delta)
    requires var u := Run(env, lay, caseId, System(d, Idle), evs);
             u.phase.Idle? && (u.disk.pending.Some? || u.disk.processing.Some?)
    ensures var e := Run(env, lay, caseId, System(d, Idle), evs + WholeAttempt(st, n)).disk;
            e.pending.None? && e.processing.None?
  {
    hide Erase, Commit, Load, Standing, Replayable, Run, Fits, Attempt, Step, Appends, Waiting;
    var s := System(d, Idle);
    WaitingSteady(env, st0, lay, caseId, d, delta);
    LockTaken(env, st0, lay, caseId, d, delta, evs);
    var l := evs + [Recover, Lock];
    LockedComputes(env, st0, st, lay, caseId, d, delta, l);
    var p := l + [Compute(st)];
    SavesThrough(env, lay, caseId, Run(env, lay, caseId, s, p));
    RunMore(env, lay, caseId, s, p, [Save, Save, Save]);
    var q := p + [Save, Save, Save];
    WorkingHoldsDelta(env, st0, lay, caseId, d, delta, q);
    var x := Run(env, lay, caseId, s, q);
    LogsThrough(env, lay, caseId, x);
    n := |x.phase.rest|;
    RunMore(env, lay, caseId, s, q, Appends(n) + [Append(true), Unlink]);
    assert q + (Appends(n) + [Append(true), Unlink]) == evs + WholeAttempt(st, n);
  }

  lemma WaitingSteady(env: Env, st0: Stamp, lay: Layout, caseId: string, d: Disk, delta: Delta)
    requires Waiting(env, st0, lay, caseId, d, delta)
    ensures Steady(lay, System(d, Idle))
  {
    hide Standing, Replayable, Attempt;
  }

  ghost predicate Finishes(p: Plan, e: Disk)
    requires WellFormed(p.lay, p.items)
  {
    Load(e).Keys == p.items.Keys && forall id :: id in p.items ==> Done(p, id, Load(e)[id])
  }

  lemma NowhereFinishes(p: Plan, delta: Delta, e: Disk)
    requires WellFormed(p.lay, p.items) && NothingLost(p, delta, e) && e.pending.None? && e.processing.None?
    ensures Finishes(p, e)
  {
    hide Done, Load;
  }

  lemma CrashRests(env: Env, lay: Layout, caseId: string, s: System, evs: seq<Event>)
    requires Steady(lay, s)
    ensures Run(env, lay, caseId, s, evs + [Crash]) == System(Run(env, lay, caseId, s, evs).disk, Idle)
  {
    hide Run;
    RunNext(env, lay, caseId, s, evs, Crash);
  }

  /** However an earlier run was cut off, one more attempt that is left alone finishes the
      commit: the delta waits nowhere and every item is done. */
  lemma NextAttemptFinishes(env: Env, st0: Stamp, st: Stamp, lay: Layout, caseId: string, d: Disk, delta: Delta,
                            evs: seq<Event>) returns (n: nat)
    requires Waiting(env, st0, lay, caseId, d, delta)
    ensures var cut := Run(env, lay, caseId, System(d, Idle), evs + [Crash]).disk;
            var e := Run(env, lay, caseId, System(d, Idle), evs + [Crash] + WholeAttempt(st, n)).disk;
            (cut.pending.Some? || cut.processing.Some?) ==>
              e.pending.None? && e.processing.None? && Finishes(Planned(env, st0, lay, caseId, d, delta), e)
  {
    hide Run, Waiting, Step, WholeAttempt, Planned, Finishes;
    n := 0;
    WaitingSteady(env, st0, lay, caseId, d, delta);
    CrashRests(env, lay, caseId, System(d, Idle), evs);
    var cut := Run(env, lay, caseId, System(d, Idle), evs + [Crash]).disk;
    if cut.pending.Some? || cut.processing.Some? {
      n := AttemptFinishes(env, st0, st, lay, caseId, d, delta, evs + [Crash]);
      var all := evs + [Crash] + WholeAttempt(st, n);
      CrashReplayConverges(env, st0, lay, caseId, d, delta, all);
      NowhereFinishes(Planned(env, st0, lay, caseId, d, delta), delta, Run(env, lay, caseId, System(d, Idle), all).disk);
    }
  }

  // ---- A delta that is refused ----------------------------------------------

  /** The last event of the run that changed anything was a crash. */
  predicate EndsInCrash(env: Env, lay: Layout, caseId: string, s: System, evs: seq<Event>)
    requires Steady(lay, s)
  {
    evs != [] &&
    var n := |evs| - 1;
    var u := Run(env, lay, caseId, s, evs[..n]);
    if Step(env, lay, caseId, u, evs[n]) == u then EndsInCrash(env, lay, caseId, s, evs[..n]) else evs[n].Crash?
  }

  /** A delta that one commit would refuse is refused by every attempt, and through any
      run of attempts, crashes and exceptions neither the case nor the delta changes; and
      unless a crash came last, the delta is pending again once the run is at rest. */
  lemma {:induction false} RefusedDeltaChangesNothing(env: Env, st0: Stamp, lay: Layout, caseId: string, d: Disk,
                                                      delta: Delta, evs: seq<Event>)
    requires Fits(lay, d) && Standing(lay, Load(d)) && Replayable(delta.entries)
    requires d.pending == Some(delta) && d.processing.None?
    requires Attempt(env, st0, lay, caseId, d, delta).None?
    ensures var u := Run(env, lay, caseId, System(d, Idle), evs);
            && SameCase(d, u.disk) && u.disk.log == d.log
            && (u.phase.Idle? || u.phase.Recovered? || u.phase.Locked?)
            && (u.phase.Locked? ==> u.disk.pending.None? && u.disk.processing == Some(delta))
            && (u.phase.Recovered? ==> u.disk.pending == Some(delta) && u.disk.processing.None?)
            && ((u.disk.pending == Some(delta) && u.disk.processing.None?) ||
                (u.disk.pending.None? && u.disk.processing == Some(delta)))
            && (u.phase.Idle? && !EndsInCrash(env, lay, caseId, System(d, Idle), evs) ==>
                  u.disk.pending == Some(delta) && u.disk.processing.None?)
  {
    hide Erase, Commit, Load, Standing, Replayable, Fits, Mixed;
    if evs != [] {
      var n := |evs| - 1;
      RefusedDeltaChangesNothing(env, st0, lay, caseId, d, delta, evs[..n]);
      var u := Run(env, lay, caseId, System(d, Idle), evs[..n]);
      if evs[n].Compute? && u.phase.Locked? {
        SameFiles(d, u.disk);
        StillRefused(env, st0, evs[n].st, lay, caseId, d, u.disk, delta);
      }
    }
  }

  lemma StillRefused(env: Env, st0: Stamp, st: Stamp, lay: Layout, caseId: string, d: Disk, e: Disk, delta: Delta)
    requires Fits(lay, d) && Fits(lay, e) && Load(e) == Load(d)
    requires Standing(lay, Load(d)) && Replayable(delta.entries)
    requires Attempt(env, st0, lay, caseId, d, delta).None?
    ensures Attempt(env, st, lay, caseId, e, delta).None?
  {
    hide Erase, Commit, Load, Standing, Replayable, Fits;
    StandingDistinct(lay, Load(d));
    if Commit(env, st, lay, Load(d), delta.entries).Some? {
      var p := Plan(env, st, lay, Load(d), delta.entries);
      forall id | id in p.items ensures Ahead(p, id, p.items[id], 0) { StageZero(p, id); }
      ReplayAdvances(p, st0, p.items);
    }
  }
}
