/** What findings and timeline events read after a run with crashes and lost log lines: exactly
    those whose record is missing although their hash has moved read as tampered. */
module ReviewTampering {
  import opened Options
  import opened ReviewModel
  import opened ReviewEngine
  import opened ReviewCoupling
  import opened ReviewReplay
  import opened ReviewIocs
  import opened ReviewConvergence
  import opened ReviewCrash
  import opened ReviewRuns
  import V = ReviewVerification

  // ---- The records of one commit --------------------------------------------

  /** A record about a finding or event that carries a hash carries that of its content. */
  ghost predicate Truthful(env: Env, items: map<ItemId, Item>, r: LogRecord) {
    !IsIocId(r.id) && r.contentHash != "" ==> r.id in items && r.contentHash == HashOf(env, items[r.id])
  }

  ghost predicate AllTruthful(env: Env, items: map<ItemId, Item>, log: seq<LogRecord>) {
    forall r :: r in log ==> Truthful(env, items, r)
  }

  lemma DirectTells(env: Env, st: Stamp, e: Entry, x: Item)
    requires Applies(e, x) && !IsIocId(e.id)
    ensures var y := DirectItem(env, st, e, x);
            var r := DirectRecord(e, x, y);
            r.id == e.id && (r.contentHash != "" ==> r.contentHash == HashOf(env, y))
  {
    hide ApproveItem, EditItem, RejectItem, HashOf, Conflict;
    if e.action.Approve? { V.ApproveHash(env, st, e, x); }
    if e.action.Edit? { V.EditHash(env, st, e, x); }
  }

  ghost predicate NamedBy(es: seq<Entry>, id: ItemId) {
    exists i :: 0 <= i < |es| && es[i].id == id
  }

  lemma {:induction false} DirectTruthful(env: Env, st: Stamp, w: Work, es: seq<Entry>)
    requires OnceNamed(es) && w.log == []
    ensures var u := Direct(env, st, w, es);
            AllTruthful(env, u.items, u.log) && forall r :: r in u.log ==> NamedBy(es, r.id)
  {
    hide DirectItem, DirectRecord, Conflict, FirstConflict, Applies, HashOf;
    if es != [] {
      var n := |es| - 1;
      var e := es[n];
      DirectTruthful(env, st, w, es[..n]);
      var v, u := Direct(env, st, w, es[..n]), Direct(env, st, w, es);
      forall r | r in v.log ensures NamedBy(es, r.id) && r.id != e.id {
        var i :| 0 <= i < n && es[..n][i].id == r.id;
        assert es[i].id == r.id;
      }
      if e.id in v.items && Applies(e, v.items[e.id]) {
        V.RecordNames(e, v.items[e.id], u.items[e.id]);
        if !IsIocId(e.id) { DirectTells(env, st, e, v.items[e.id]); }
        forall r | r in u.log ensures Truthful(env, u.items, r) && NamedBy(es, r.id) {
          if r in v.log { assert Truthful(env, v.items, r); } else { assert es[n].id == r.id; }
        }
      }
    }
  }

  lemma CoupleTells(env: Env, st: Stamp, id: ItemId, x: Item, ss: Value)
    ensures var y := CoupleItem(env, st, x, ss);
            && HashOf(env, y) == HashOf(env, x)
            && forall r :: r in CoupleLog(id, x, ss, y) ==>
                 r.id == id && (r.contentHash != "" ==> r.contentHash == HashOf(env, y))
  {
    hide CoupleItem, HashOf, CoupleApproves, CoupleRejects;
    V.CoupleHash(env, st, x, ss);
  }

  lemma {:induction false} CoupleTruthful(env: Env, st: Stamp, w: Work, ids: seq<ItemId>)
    requires (forall id :: id in ids ==> id in w.items) && AllTruthful(env, w.items, w.log)
    ensures var u := Couple(env, st, w, ids); AllTruthful(env, u.items, u.log)
  {
    hide CoupleItem, CoupleLog, SourceStatus, HashOf;
    if ids != [] {
      var id := ids[|ids|-1];
      CoupleTruthful(env, st, w, ids[..|ids|-1]);
      var v, u := Couple(env, st, w, ids[..|ids|-1]), Couple(env, st, w, ids);
      var x := v.items[id];
      CoupleTells(env, st, id, x, SourceStatus(v.items, x));
      forall r | r in u.log ensures Truthful(env, u.items, r) {
        if r in v.log { assert Truthful(env, v.items, r); }
      }
    }
  }

  lemma {:induction false} CascadeTruthful(env: Env, st: Stamp, w: Work, ids: seq<ItemId>)
    requires forall id :: id in ids ==> id in w.items && IsIocId(id)
    requires Cascade(env, st, w, ids).Some? && AllTruthful(env, w.items, w.log)
    ensures var u := Cascade(env, st, w, ids).value;
            && AllTruthful(env, u.items, u.log)
            && forall r :: r in u.log && !IsIocId(r.id) ==> r in w.log
  {
    hide CascadeItem, CascadeRaises, Sources, CascadeApproves, CascadeRejects, CascadeRanks, HashOf, StoredHash;
    if ids != [] {
      var id := ids[|ids|-1];
      CascadeTruthful(env, st, w, ids[..|ids|-1]);
      var v, u := Cascade(env, st, w, ids[..|ids|-1]).value, Cascade(env, st, w, ids).value;
      forall r | r in u.log && !IsIocId(r.id) ensures r in w.log && Truthful(env, u.items, r) {
        assert r in v.log;
        assert Truthful(env, v.items, r);
      }
    }
  }

  /** Every hash a commit logs for a finding or event is that of the content it leaves. */
  lemma CommitTruthful(env: Env, st: Stamp, lay: Layout, items: map<ItemId, Item>, es: seq<Entry>)
    requires WellFormed(lay, items) && OnceNamed(es) && Commit(env, st, lay, items, es).Some?
    ensures var w := Commit(env, st, lay, items, es).value; AllTruthful(env, w.items, w.log)
  {
    hide Direct, Couple, Cascade, OnceNamed;
    OrderedOnce(es);
    var w := Loaded(items);
    DirectKeys(env, st, w, Ordered(es));
    DirectTruthful(env, st, w, Ordered(es));
    CoupleTruthful(env, st, Direct(env, st, w, Ordered(es)), lay.All());
    CascadeTruthful(env, st, Reviewed(env, st, lay, items, es), lay.iocs);
  }

  // ---- The log over a run ---------------------------------------------------

  /** A record about a finding or event that carries a hash carries that of the completed commit. */
  ghost predicate Tells(p: Plan, r: LogRecord)
    requires WellFormed(p.lay, p.items)
  {
    !IsIocId(r.id) && r.contentHash != "" ==> r.id in p.items && r.contentHash == HashOf(p.env, Before(p)[r.id])
  }

  ghost predicate AllTell(p: Plan, log: seq<LogRecord>)
    requires WellFormed(p.lay, p.items)
  {
    forall r :: r in log ==> Tells(p, r)
  }

  /** What the run has written and what it is about to write. */
  ghost predicate LogOk(p: Plan, earlier: seq<LogRecord>, s: System)
    requires WellFormed(p.lay, p.items)
  {
    && earlier <= s.disk.log && AllTell(p, s.disk.log[|earlier|..])
    && match s.phase
       case SaveFindings(w) => AllTell(p, w.log)
       case SaveTimeline(w) => AllTell(p, w.log)
       case SaveIocs(w) => AllTell(p, w.log)
       case Logging(rest) => AllTell(p, rest)
       case _ => true
  }

  lemma EventAhead(p: Plan, id: ItemId, x: Item)
    requires WellFormed(p.lay, p.items) && id in p.items && !IsIocId(id) && Ahead(p, id, x, 1)
    ensures Erase(x) == Erase(Before(p)[id])
  {
    hide Erase, Before;
  }

  lemma OutcomeTells(p: Plan, st: Stamp, m: map<ItemId, Item>)
    requires Sound(p) && Mixed(p, m)
    ensures WellFormed(p.lay, m) && Commit(p.env, st, p.lay, m, p.es).Some?
    ensures AllTell(p, Commit(p.env, st, p.lay, m, p.es).value.log)
  {
    hide Erase, Commit, Standing, WellFormed, Ahead, Before, HashOf, ReplayableAll;
    StandingDistinct(p.lay, p.items);
    ComputedAhead(p, m, st);
    var w := Commit(p.env, st, p.lay, m, p.es).value;
    CommitTruthful(p.env, st, p.lay, m, p.es);
    forall r | r in w.log ensures Tells(p, r) {
      assert Truthful(p.env, w.items, r);
      if !IsIocId(r.id) && r.contentHash != "" {
        EventAhead(p, r.id, w.items[r.id]);
        EraseContent(p.env, w.items[r.id], Before(p)[r.id]);
      }
    }
  }

  lemma LogStep(p: Plan, caseId: string, delta: Delta, earlier: seq<LogRecord>, s: System, ev: Event)
    requires Sound(p) && p.es == delta.entries && Inv(p, delta, s) && LogOk(p, earlier, s)
    ensures LogOk(p, earlier, Step(p.env, p.lay, caseId, s, ev))
  {
    hide Commit, Standing, Replayable, WellFormed, Tells, PhaseOk, Placed, Load, Fits, Part, SavesIocs, Mixed;
    StandingDistinct(p.lay, p.items);
    if ev.Compute? && s.phase.Locked? && s.disk.processing.Some? {
      PlacedDelta(p, delta, s);
      OutcomeTells(p, ev.st, Load(s.disk));
    }
    if ev.Append? && s.phase.Logging? && s.phase.rest != [] {
      var r := s.phase.rest[0];
      assert (s.disk.log + [r])[|earlier|..] == s.disk.log[|earlier|..] + [r];
      assert Tells(p, r);
    }
  }

  lemma PlacedDelta(p: Plan, delta: Delta, s: System)
    requires WellFormed(p.lay, p.items) && Inv(p, delta, s) && s.phase.Locked?
    ensures s.disk.processing == Some(delta)
  {
    hide Mixed, PhaseOk, Fits, Load;
  }

  lemma {:induction false} RunTells(env: Env, st: Stamp, lay: Layout, caseId: string, d: Disk, delta: Delta,
                                    evs: seq<Event>)
    requires Waiting(env, st, lay, caseId, d, delta)
    ensures LogOk(Planned(env, st, lay, caseId, d, delta), d.log, Run(env, lay, caseId, System(d, Idle), evs))
  {
    hide Waiting, Planned, Step, Inv, LogOk, Load;
    WaitingSteady(env, st, lay, caseId, d, delta);
    var p := Planned(env, st, lay, caseId, d, delta);
    if evs == [] {
      NothingWritten(p, System(d, Idle));
    } else {
      var n := |evs| - 1;
      RunTells(env, st, lay, caseId, d, delta, evs[..n]);
      RunKeeps(env, st, lay, caseId, d, delta, evs[..n]);
      LogStep(p, caseId, delta, d.log, Run(env, lay, caseId, System(d, Idle), evs[..n]), evs[n]);
    }
  }

  lemma NothingWritten(p: Plan, s: System)
    requires WellFormed(p.lay, p.items) && s.phase.Idle?
    ensures LogOk(p, s.disk.log, s)
  {
    hide WellFormed;
    assert s.disk.log[|s.disk.log|..] == [];
  }

  // ---- What a finished run leaves to read -----------------------------------

  /** The last record is one of the run's own, if there is any, and otherwise the old one. */
  lemma {:induction false} LastOfRun(a: seq<LogRecord>, b: seq<LogRecord>, id: ItemId)
    requires id != ""
    ensures V.Mentions(b, id) ==>
              V.LastRecord(a + b, id).Some? && V.LastRecord(a + b, id).value in b && V.LastRecord(a + b, id).value.id == id
    ensures !V.Mentions(b, id) ==> V.LastRecord(a + b, id) == V.LastRecord(a, id)
  {
    if b == [] {
      assert a + b == a;
    } else {
      var n := |b| - 1;
      LastOfRun(a, b[..n], id);
      assert (a + b)[..|a + b|-1] == a + b[..n];
      assert b == b[..n] + [b[n]];
      V.MentionsMore(b[..n], [b[n]], id);
      if b[n].id == id { V.OneMentions(b[n]); }
    }
  }

  /** The old record names the status the item ends with and vouches for another content. */
  ghost predicate Outdated(env: Env, last: Option<LogRecord>, before: Item, after: Item) {
    && last.Some? && last.value.action != Rejected && State(last.value.action) == V.StatusOf(after)
    && V.StatusOf(after) != State(Draft) && HashOf(env, after) != HashOf(env, before)
  }

  lemma OldRecordReads(env: Env, last: Option<LogRecord>, before: Item, after: Item)
    requires V.Attested(env, before, last) && V.HashOk(env, after) && HashOf(env, before) != ""
    ensures V.VerifyItem(env, after, last) == V.Tampered <==> Outdated(env, last, before, after)
  {
    hide HashOf;
  }

  lemma NewRecordReads(env: Env, r: LogRecord, x: Item)
    requires V.HashOk(env, x) && (r.contentHash != "" ==> r.contentHash == HashOf(env, x))
    ensures V.VerifyItem(env, x, Some(r)) != V.Tampered
  {
    hide HashOf;
  }

  lemma ReadsAlike(env: Env, x: Item, y: Item)
    requires Erase(x) == Erase(y)
    ensures V.StatusOf(x) == V.StatusOf(y) && HashOf(env, x) == HashOf(env, y) && V.HashOk(env, x) == V.HashOk(env, y)
  {
    hide Erase, HashOf;
    EraseGet(x, y, Status);
    EraseGet(x, y, ContentHash);
    EraseContent(env, x, y);
  }

  /** The completed commit leaves every stored hash absent or correct. */
  lemma CompletedHashOk(env: Env, st: Stamp, lay: Layout, caseId: string, d: Disk, delta: Delta, id: ItemId)
    requires Waiting(env, st, lay, caseId, d, delta) && V.AllAttested(env, Load(d), d.log)
    requires id in Load(d) && !IsIocId(id)
    ensures V.HashOk(env, Commits(Planned(env, st, lay, caseId, d, delta), 1)[id])
  {
    hide Commit, Standing, Replayable, Load, V.LastRecord;
    var p := Planned(env, st, lay, caseId, d, delta);
    FirstCommit(env, st, lay, caseId, d, delta);
    V.AfterAttests(env, lay, V.Case(Load(d), d.log), V.Round(st, delta.entries));
  }

  ghost predicate ReadsTampered(env: Env, d: Disk, id: ItemId) {
    id in Load(d) && V.VerifyItem(env, Load(d)[id], V.LastRecord(d.log, id)) == V.Tampered
  }

  /** Exactly which findings and events read as tampered once a run has left the delta nowhere,
      whatever crashes, exceptions and lost log lines it met: those the run wrote no record
      about, whose old record names the status they end with, and whose content has changed. */
  lemma TamperedExactly(env: Env, st: Stamp, lay: Layout, caseId: string, d: Disk, delta: Delta, evs: seq<Event>,
                        id: ItemId)
    requires Waiting(env, st, lay, caseId, d, delta) && V.AllAttested(env, Load(d), d.log)
    requires forall x :: env.digest(x) != ""
    requires id in Load(d) && !IsIocId(id)
    requires var u := Run(env, lay, caseId, System(d, Idle), evs).disk; u.pending.None? && u.processing.None?
    ensures var u := Run(env, lay, caseId, System(d, Idle), evs).disk;
            var done := Commits(Planned(env, st, lay, caseId, d, delta), 1)[id];
            && d.log <= u.log && id in Load(u)
            && (ReadsTampered(env, u, id) <==>
                  !V.Mentions(u.log[|d.log|..], id) && Outdated(env, V.LastRecord(d.log, id), Load(d)[id], done))
  {
    hide Run, Waiting, Erase, Commits, Load, Planned, V.LastRecord, V.VerifyItem, V.Mentions, Outdated, HashOf,
         V.HashOk, V.Attested, Sound, WellFormed, AllTell, Before, V.AllAttested;
    var p := Planned(env, st, lay, caseId, d, delta);
    PlanIs(env, st, lay, caseId, d, delta);
    WaitingSteady(env, st, lay, caseId, d, delta);
    var u := Run(env, lay, caseId, System(d, Idle), evs).disk;
    RunTells(env, st, lay, caseId, d, delta, evs);
    EventConverging(p, id);
    ConvergingEndsAsOne(env, st, lay, caseId, d, delta, id, evs);
    CompletedHashOk(env, st, lay, caseId, d, delta, id);
    EventIsBefore(p, id);
    StartAttested(env, Load(d), d.log, id);
    ReadsAlike(env, Load(u)[id], Commits(p, 1)[id]);
    OneReading(env, p, d.log, u.log, id, Load(d)[id], Load(u)[id], Commits(p, 1)[id]);
  }

  lemma EventConverging(p: Plan, id: ItemId)
    requires WellFormed(p.lay, p.items) && id in p.items && !IsIocId(id)
    ensures Converging(p, id)
  {
  }

  lemma StartAttested(env: Env, items: map<ItemId, Item>, log: seq<LogRecord>, id: ItemId)
    requires V.AllAttested(env, items, log) && id in items && !IsIocId(id)
    requires forall x :: env.digest(x) != ""
    ensures V.Attested(env, items[id], V.LastRecord(log, id)) && HashOf(env, items[id]) != ""
  {
    hide Content;
  }

  lemma EventIsBefore(p: Plan, id: ItemId)
    requires Sound(p) && id in p.items && !IsIocId(id)
    ensures Commits(p, 1)[id] == Before(p)[id]
  {
    hide Cascade, Reviewed, Replayable, FollowsForward;
    assert Commits(p, 0) == p.items;
    AfterCascade(p.env, p.st, p.lay, p.items, p.es, id);
  }

  lemma OneReading(env: Env, p: Plan, earlier: seq<LogRecord>, log: seq<LogRecord>, id: ItemId, before: Item, x: Item, done: Item)
    requires WellFormed(p.lay, p.items) && p.env == env && id in p.items && !IsIocId(id) && done == Before(p)[id]
    requires earlier <= log && AllTell(p, log[|earlier|..])
    requires V.Attested(env, before, V.LastRecord(earlier, id)) && V.HashOk(env, x) && HashOf(env, before) != ""
    requires V.StatusOf(x) == V.StatusOf(done) && HashOf(env, x) == HashOf(env, done)
    ensures V.VerifyItem(env, x, V.LastRecord(log, id)) == V.Tampered <==>
            !V.Mentions(log[|earlier|..], id) && Outdated(env, V.LastRecord(earlier, id), before, done)
  {
    hide V.LastRecord, V.VerifyItem, V.Mentions, HashOf, V.HashOk, V.Attested, Before, WellFormed;
    var later := log[|earlier|..];
    assert log == earlier + later;
    V.NoLastForEmpty(log, id);
    V.NoLastForEmpty(earlier, id);
    if id == "" {
      NoRecordReads(env, x);
    } else {
      LastOfRun(earlier, later, id);
      if V.Mentions(later, id) {
        var r := V.LastRecord(log, id).value;
        assert Tells(p, r);
        NewRecordReads(env, r, x);
      } else {
        OldRecordReads(env, V.LastRecord(earlier, id), before, x);
      }
    }
  }

  lemma NoRecordReads(env: Env, x: Item)
    ensures V.VerifyItem(env, x, None) != V.Tampered
  {
    hide HashOf;
  }

  // ---- A crash that leaves an item so ---------------------------------------

  /** A decision that changes a field of a finding or event conflicts with its own outcome, and
      the outcome follows no source any more. */
  lemma ChangeConflicts(env: Env, st: Stamp, e: Entry, x: Item, ss: Value)
    requires (e.action.Approve? || e.action.Edit?) && !IsIocId(e.id) && ReplayableEntry(e)
    requires !Conflict(x, e.mods) && Changing(e.mods)
    ensures var y := CoupleItem(env, st, DirectItem(env, st, e, x), ss);
            !Applies(e, y) && !Coupled(y)
  {
    hide ApproveItem, EditItem, CoupleItem, OnlyEditable, DistinctFields, Content, HashOf, Coupled, Conflict, Changing;
    var d := DirectItem(env, st, e, x);
    ChangingSome(e.mods);
    ModsCarried(st, x, e.mods);
    CarriesThroughStamps(env, st, e, x);
    CarryingIsUncoupled(d, e.mods);
    UncoupledStays(env, st, d);
    CarriedConflict(d, e.mods);
  }

  lemma ChangingSome(ms: seq<FieldMod>)
    requires Changing(ms)
    ensures ms != []
  {
  }

  lemma {:induction false} DirectSilent(env: Env, st: Stamp, w: Work, es: seq<Entry>, id: ItemId)
    requires id in w.items && !V.Mentions(w.log, id)
    requires forall e :: e in es && e.id == id ==> !Applies(e, w.items[id])
    ensures var u := Direct(env, st, w, es); id in u.items && u.items[id] == w.items[id] && !V.Mentions(u.log, id)
  {
    hide DirectItem, DirectRecord, Applies, Conflict, FirstConflict, V.Mentions;
    if es != [] {
      var n := |es| - 1;
      DirectSilent(env, st, w, es[..n], id);
      var v := Direct(env, st, w, es[..n]);
      var e := es[n];
      if e.id in v.items && Applies(e, v.items[e.id]) {
        var r := DirectRecord(e, v.items[e.id], DirectItem(env, st, e, v.items[e.id]));
        V.RecordNames(e, v.items[e.id], DirectItem(env, st, e, v.items[e.id]));
        V.MentionsMore(v.log, [r], id);
        OneMention(r, id);
      }
    }
  }

  lemma OneMention(r: LogRecord, id: ItemId)
    ensures V.Mentions([r], id) <==> r.id == id
  {
    if r.id == id { assert [r][0].id == id; }
  }

  lemma {:induction false} CoupleSilent(env: Env, st: Stamp, w: Work, ids: seq<ItemId>, id: ItemId)
    requires forall i :: i in ids ==> i in w.items
    requires id in w.items && !Coupled(w.items[id]) && !V.Mentions(w.log, id)
    ensures !V.Mentions(Couple(env, st, w, ids).log, id)
  {
    hide CoupleItem, SourceStatus, Coupled, V.Mentions, StoredHash;
    if ids != [] {
      var n := |ids| - 1;
      CoupleSilent(env, st, w, ids[..n], id);
      CoupleFrame(env, st, w, ids[..n], id);
      var v := Couple(env, st, w, ids[..n]);
      var x := v.items[ids[n]];
      var rs := CoupleLog(ids[n], x, SourceStatus(v.items, x), Couple(env, st, w, ids).items[ids[n]]);
      V.MentionsMore(v.log, rs, id);
      if rs == [] {
        assert v.log + rs == v.log;
      } else {
        assert rs == [rs[0]];
        OneMention(rs[0], id);
      }
    }
  }

  /** A commit that neither decides on an item nor couples it logs nothing about it. */
  lemma CommitSilent(env: Env, st: Stamp, lay: Layout, items: map<ItemId, Item>, es: seq<Entry>, id: ItemId)
    requires WellFormed(lay, items) && OnceNamed(es) && Commit(env, st, lay, items, es).Some?
    requires id in items && !IsIocId(id) && !Coupled(items[id])
    requires forall e :: e in es && e.id == id ==> !Applies(e, items[id])
    ensures !V.Mentions(Commit(env, st, lay, items, es).value.log, id)
  {
    hide Direct, Couple, Cascade, OnceNamed, Applies, Coupled, V.Mentions;
    OrderedOnce(es);
    NoMentions(id);
    var w := Loaded(items);
    DirectKeys(env, st, w, Ordered(es));
    DirectSilent(env, st, w, Ordered(es), id);
    CoupleSilent(env, st, Direct(env, st, w, Ordered(es)), lay.All(), id);
    DirectTruthful(env, st, w, Ordered(es));
    CoupleTruthful(env, st, Direct(env, st, w, Ordered(es)), lay.All());
    CascadeTruthful(env, st, Reviewed(env, st, lay, items, es), lay.iocs);
    MentionsFrom(Reviewed(env, st, lay, items, es).log, Commit(env, st, lay, items, es).value.log, id);
  }

  lemma NoMentions(id: ItemId)
    ensures !V.Mentions([], id)
  {
  }

  lemma MentionsFrom(a: seq<LogRecord>, b: seq<LogRecord>, id: ItemId)
    requires forall r :: r in b && r.id == id ==> r in a
    ensures V.Mentions(b, id) ==> V.Mentions(a, id)
  {
    if i :| 0 <= i < |b| && b[i].id == id {
      var j :| 0 <= j < |a| && a[j] == b[i];
      assert a[j].id == id;
    }
  }

  /** The second commit logs nothing about an item whose decision changed it. */
  lemma SecondSilent(p: Plan, e: Entry)
    requires Sound(p) && e in p.es && e.id in p.items && !IsIocId(e.id)
    requires (e.action.Approve? || e.action.Edit?) && !Conflict(p.items[e.id], e.mods) && Changing(e.mods)
    ensures !V.Mentions(SecondLog(p), e.id)
  {
    hide Commit, Standing, Reviewed, Coupled, Applies, Conflict, Changing, DirectItem, CoupleItem, Acted, V.Mentions,
         ReplayableEntry, Ordered, WellFormed, Commits, SourceStatus;
    var id := e.id;
    StandingDistinct(p.lay, p.items);
    SecondCommit(p);
    EventIsBefore(p, id);
    ReviewedAt(p.env, p.st, p.lay, p.items, p.es, id);
    OrderedOnce(p.es);
    EntryInOrder(p.es, e);
    ActedOnce(p.env, p.st, Ordered(p.es), id, p.items[id]);
    ChangeConflicts(p.env, p.st, e, p.items[id], SourceStatus(Before(p), p.items[id]));
    forall f | f in p.es && f.id == id ensures f == e { OnlyOne(p.es, e, f); }
    SameKeysFit(p.lay, p.items, Commits(p, 1));
    CommitSilent(p.env, p.st, p.lay, Commits(p, 1), p.es, id);
  }

  /** A decision that changes the content of an item whose old record names the status the item
      ends with. */
  ghost predicate Exposed(p: Plan, log: seq<LogRecord>, e: Entry)
    requires WellFormed(p.lay, p.items)
  {
    && e in p.es && e.id in p.items && !IsIocId(e.id)
    && (e.action.Approve? || e.action.Edit?) && !Conflict(p.items[e.id], e.mods) && Changing(e.mods)
    && Outdated(p.env, V.LastRecord(log, e.id), p.items[e.id], Commits(p, 1)[e.id])
  }

  ghost function DiskAfter(env: Env, st: Stamp, lay: Layout, caseId: string, d: Disk, delta: Delta, evs: seq<Event>): Disk
    requires Waiting(env, st, lay, caseId, d, delta)
  {
    Run(env, lay, caseId, System(d, Idle), evs).disk
  }

  /** A crash between the last save and the log is enough: the finished run leaves such an item
      reading as tampered, though every log line that was due has been written. */
  lemma CrashReadsTampered(env: Env, st: Stamp, lay: Layout, caseId: string, d: Disk, delta: Delta, e: Entry)
    returns (n: nat)
    requires Waiting(env, st, lay, caseId, d, delta) && V.AllAttested(env, Load(d), d.log)
    requires forall x :: env.digest(x) != ""
    requires Exposed(Planned(env, st, lay, caseId, d, delta), d.log, e)
    ensures var u := DiskAfter(env, st, lay, caseId, d, delta, CutAttempt(st) + WholeAttempt(st, n));
            u.pending.None? && u.processing.None? && ReadsTampered(env, u, e.id)
  {
    hide Run, Waiting, Commits, Load, Planned, V.LastRecord, V.VerifyItem, V.Mentions, Outdated, Sound, WellFormed,
         V.AllAttested, WholeAttempt, CutAttempt, Conflict, Changing, SecondLog, HashOf, ReadsTampered;
    var p := Planned(env, st, lay, caseId, d, delta);
    PlanIs(env, st, lay, caseId, d, delta);
    WaitingSteady(env, st, lay, caseId, d, delta);
    SecondSilent(p, e);
    n := CutThenWhole(env, st, lay, caseId, d, delta);
    var evs := CutAttempt(st) + WholeAttempt(st, n);
    var u := Run(env, lay, caseId, System(d, Idle), evs).disk;
    TamperedExactly(env, st, lay, caseId, d, delta, evs, e.id);
    assert u.log[|d.log|..] == SecondLog(p);
  }
}
