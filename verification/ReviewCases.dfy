/** Three deltas, small enough to follow by hand, that a crash carries out otherwise than an
    uninterrupted commit does. */
module ReviewCases {
  import opened Options
  import opened ReviewModel
  import opened ReviewEngine
  import opened ReviewBooks
  import opened ReviewCoupling
  import opened ReviewReplay
  import opened ReviewIocs
  import opened ReviewConvergence
  import opened ReviewCrash
  import opened ReviewRuns

  // ---- The case -------------------------------------------------------------

  /** A draft finding of high confidence. */
  function Finding(): Item {
    map[Status := State(Draft), Confidence := Text("HIGH")]
  }

  /** An IOC drawn from it that still has another confidence. */
  function Ioc(): Item {
    map[Confidence := Text("MEDIUM"), SourceFindings := Ids(["F-1"])]
  }

  function Case(): map<ItemId, Item> {
    map["F-1" := Finding(), "IOC-1" := Ioc()]
  }

  function Files(): Layout {
    Layout(["F-1"], [], ["IOC-1"])
  }

  function Example(env: Env, st: Stamp, e: Entry): Plan {
    Plan(env, st, Files(), Case(), [e])
  }

  function Posted(e: Entry): Delta {
    Delta("", [e])
  }

  /** The disk with the delta just posted. */
  function Start(e: Entry): Disk {
    Disk(map["F-1" := Finding()], map[], map["IOC-1" := Ioc()], [], Some(Posted(e)), None)
  }

  lemma Prefixes()
    ensures !IsIocId("F-1") && IsIocId("IOC-1")
  {
  }

  lemma FilesFit()
    ensures WellFormed(Files(), Case())
  {
    hide IsIocId;
    Prefixes();
    assert Files().All() == ["F-1", "IOC-1"];
  }

  lemma NothingFollowed()
    ensures SourceOf(Finding()).None? && SourceOf(Ioc()).None? && Named(Ioc()) == ["F-1"]
    ensures !Coupled(Finding()) && !Coupled(Ioc())
  {
  }

  lemma CaseStands()
    ensures Standing(Files(), Case())
  {
    hide IsIocId, SourceOf, Named, WellFormed, Coupled;
    Prefixes();
    FilesFit();
    NothingFollowed();
  }

  // ---- One decision on the IOC ----------------------------------------------

  lemma SelectOne(e: Entry, a: Action)
    ensures Select([e], a) == if e.action == a then [e] else []
  {
    assert [e][..0] == [] && Select([], a) == [];
  }

  lemma OrderedOne(e: Entry)
    requires !e.action.UnknownAction?
    ensures Ordered([e]) == [e]
  {
    SelectOne(e, Approve);
    SelectOne(e, Edit);
    SelectOne(e, Reject);
  }

  /** The finding is as it was when the cascade reads it. */
  lemma FindingStays(env: Env, st: Stamp, e: Entry)
    requires e.id == "IOC-1" && WellFormed(Files(), Case())
    ensures "F-1" in Before(Example(env, st, e)) && Before(Example(env, st, e))["F-1"] == Finding()
  {
    hide Acted, Standing, WellFormed, Coupled, SourceOf, Ordered, CoupleItem;
    CaseStands();
    Prefixes();
    NothingFollowed();
    var es := Ordered([e]);
    ReviewedAt(env, st, Files(), Case(), [e], "F-1");
    SelectOnly(e);
    Unnamed(env, st, es, "F-1", Finding());
    UncoupledStays(env, st, Finding());
  }

  lemma SelectOnly(e: Entry)
    ensures forall f :: f in Ordered([e]) ==> f == e
  {
    SelectOne(e, Approve);
    SelectOne(e, Edit);
    SelectOne(e, Reject);
  }

  lemma {:induction false} Unnamed(env: Env, st: Stamp, es: seq<Entry>, id: ItemId, x: Item)
    requires forall e :: e in es ==> e.id != id
    ensures Acted(env, st, es, id, x) == x
  {
    if es != [] { Unnamed(env, st, es[..|es|-1], id, x); }
  }

  lemma SourcesAre(env: Env, st: Stamp, e: Entry)
    requires e.id == "IOC-1" && WellFormed(Files(), Case())
    ensures SourcesFor(Example(env, st, e), "IOC-1") == [Finding()]
  {
    hide Before, WellFormed;
    FindingStays(env, st, e);
    assert ["F-1"][..0] == [] && Known(Before(Example(env, st, e)), []) == [];
    assert Known(Before(Example(env, st, e)), ["F-1"]) == [Finding()];
  }

  lemma OneActive(env: Env)
    ensures var a := [Finding()]; Active(a) == a && Best(env, a) == Finding() && Rankable(Finding())
    ensures forall s :: s != Draft ==> !AllHold([Finding()], s)
  {
    var a := [Finding()];
    assert a[..0] == [] && Active([]) == [];
    assert Get(a[0], Status) == State(Draft);
  }

  /** The cascade has one source to rank, and always can. */
  lemma OneSource(env: Env)
    ensures var a := [Finding()];
            && Active(a) == a && Best(env, a) == Finding()
            && (forall x :: !CascadeRaises(env, x, a) && !CascadeApproves(x, a) && !CascadeRejects(x, a))
            && CascadeOpen(Ioc(), a) && CascadeRanks(env, Ioc(), a)
  {
    hide Active, Best, AllHold, Rankable;
    OneActive(env);
  }

  lemma ExampleSound(env: Env, st: Stamp, e: Entry)
    requires e.id == "IOC-1" && ReplayableEntry(e)
    ensures Sound(Example(env, st, e)) && SourcesFor(Example(env, st, e), "IOC-1") == [Finding()]
  {
    hide CascadeRaises, CascadeApproves, CascadeRejects, CascadeRanks, Reviewed, Cascade, ReplayableEntry, Named, Known;
    var p := Example(env, st, e);
    CaseStands();
    StandingDistinct(Files(), Case());
    SourcesAre(env, st, e);
    OneSource(env);
    Prefixes();
    NothingFollowed();
    KeepsNamed(env, st, Files(), Case(), [e], "IOC-1");
    SourcesNamed(Before(p), Before(p)["IOC-1"]);
    SourcesNamed(Before(p), Ioc());
    CascadeSucceeds(env, st, Reviewed(env, st, p.lay, p.items, p.es), p.lay.iocs);
  }

  lemma Loads(e: Entry)
    ensures Load(Start(e)) == Case() && Fits(Files(), Start(e))
  {
  }

  lemma StartWaits(env: Env, st: Stamp, e: Entry)
    requires e.id == "IOC-1" && ReplayableEntry(e)
    ensures Waiting(env, st, Files(), "", Start(e), Posted(e))
    ensures Planned(env, st, Files(), "", Start(e), Posted(e)) == Example(env, st, e)
  {
    hide Commit, Standing, ReplayableEntry, Load, Fits;
    ExampleSound(env, st, e);
    Loads(e);
  }

  /** The case after the uninterrupted run, and after a run cut off between its last save and the
      log: one commit against two. In both the delta waits nowhere. */
  lemma TwoRuns(env: Env, st: Stamp, e: Entry) returns (m: nat, n: nat)
    requires e.id == "IOC-1" && ReplayableEntry(e)
    ensures Fits(Files(), Start(e))
    ensures var p := Example(env, st, e);
            var once := Run(env, Files(), "", System(Start(e), Idle), WholeAttempt(st, m)).disk;
            var cut := Run(env, Files(), "", System(Start(e), Idle), CutAttempt(st) + WholeAttempt(st, n)).disk;
            && Sound(p) && once.pending.None? && once.processing.None? && cut.pending.None? && cut.processing.None?
            && Load(once) == Commits(p, 1) && Load(cut) == Commits(p, 2)
  {
    hide Run, WholeAttempt, CutAttempt, Commits, Commit, Standing, Waiting, Planned, Load, Fits, ReplayableEntry;
    Loads(e);
    ExampleSound(env, st, e);
    StartWaits(env, st, e);
    m := OnceThrough(env, st, Files(), "", Start(e), Posted(e));
    n := CutThenWhole(env, st, Files(), "", Start(e), Posted(e));
  }

  // ---- First way: an approval hashes before its own flag --------------------

  function PlainApproval(): Entry {
    Entry("IOC-1", Approve, [], "", "", "")
  }

  /** The IOCs differ in their stored hash and, up to stamps and notes, in nothing else. */
  ghost predicate OnlyHashDiffers(x: Item, y: Item) {
    Rough(x) == Rough(y) && Erase(x) != Erase(y)
  }

  /** A decision that does not repeat and is not unblocked ends with another hash. */
  lemma HashDiffers(env: Env, st: Stamp, e: Entry)
    requires e.id == "IOC-1" && ReplayableEntry(e) && Injective(env)
    requires !Repeats(env, e, Ioc(), [Finding()]) && !Unblocked(env, e, Ioc(), [Finding()])
    ensures Sound(Example(env, st, e))
    ensures OnlyHashDiffers(Commits(Example(env, st, e), 2)["IOC-1"], Commits(Example(env, st, e), 1)["IOC-1"])
  {
    hide Erase, Rough, Commits, Commit, Standing, Repeats, Unblocked, ReplayableEntry, Injective, SourcesFor;
    var p := Example(env, st, e);
    ExampleSound(env, st, e);
    StandingDistinct(p.lay, p.items);
    Prefixes();
    ConvergesExactly(p, e);
    NotRevived(p, e);
    ReplayConverges(p, "IOC-1", 2);
  }

  lemma NotRevived(p: Plan, e: Entry)
    requires WellFormed(p.lay, p.items) && p.es == [e] && e.id in p.items
    requires !Unblocked(p.env, e, p.items[e.id], SourcesFor(p, e.id))
    ensures !Revived(p, e.id)
  {
    hide Unblocked, SourcesFor;
  }

  lemma CrashRehashesApproval(env: Env, st: Stamp) returns (m: nat, n: nat)
    requires Injective(env)
    ensures Fits(Files(), Start(PlainApproval()))
    ensures var s := System(Start(PlainApproval()), Idle);
            var once := Run(env, Files(), "", s, WholeAttempt(st, m)).disk;
            var cut := Run(env, Files(), "", s, CutAttempt(st) + WholeAttempt(st, n)).disk;
            && "IOC-1" in Load(once) && "IOC-1" in Load(cut)
            && OnlyHashDiffers(Load(cut)["IOC-1"], Load(once)["IOC-1"])
  {
    hide Run, WholeAttempt, CutAttempt, Commits, Load, Fits, OnlyHashDiffers, Sound;
    var e := PlainApproval();
    assert ReplayableEntry(e);
    assert !Conflict(Ioc(), e.mods) && !Changing(e.mods);
    HashDiffers(env, st, e);
    m, n := TwoRuns(env, st, e);
  }

  // ---- Second way: an edit hashes before the cascade ------------------------

  /** An edit that puts the tags to what they are. */
  function EmptyEdit(): Entry {
    Entry("IOC-1", Edit, [FieldMod(Tags, Null, Null)], "", "", "")
  }

  lemma CrashRehashesEdit(env: Env, st: Stamp) returns (m: nat, n: nat)
    requires Injective(env)
    ensures Fits(Files(), Start(EmptyEdit()))
    ensures var s := System(Start(EmptyEdit()), Idle);
            var once := Run(env, Files(), "", s, WholeAttempt(st, m)).disk;
            var cut := Run(env, Files(), "", s, CutAttempt(st) + WholeAttempt(st, n)).disk;
            && "IOC-1" in Load(once) && "IOC-1" in Load(cut)
            && OnlyHashDiffers(Load(cut)["IOC-1"], Load(once)["IOC-1"])
  {
    hide Run, WholeAttempt, CutAttempt, Commits, Load, Fits, OnlyHashDiffers, Sound, CascadeRanks;
    var e := EmptyEdit();
    assert ReplayableEntry(e);
    assert !Conflict(Ioc(), e.mods) && !Changing(e.mods) && !Names(e.mods, Confidence);
    OneSource(env);
    HashDiffers(env, st, e);
    m, n := TwoRuns(env, st, e);
  }

  // ---- Third way: the cascade unblocks a skipped approval -------------------

  /** An approval that expects the high confidence and lowers it. */
  function Lowering(): Entry {
    Entry("IOC-1", Approve, [FieldMod(Confidence, Text("HIGH"), Text("LOW"))], "", "", "")
  }

  lemma Unblocks(env: Env)
    ensures Unblocked(env, Lowering(), Ioc(), [Finding()]) && ReplayableEntry(Lowering())
  {
    hide CascadeRanks, Active, Best;
    OneSource(env);
    var e := Lowering();
    assert Get(Ioc(), e.mods[0].field) != e.mods[0].original;
  }

  lemma FirstLeaves(env: Env, st: Stamp)
    ensures Get(Next(env, st, Some(Lowering()), Ioc(), [Finding()]), Status) == Null
  {
    hide CascadeRanks, Active, Best, DirectItem, CascadeApproves, CascadeRejects;
    OneSource(env);
    Unblocks(env);
    BlockedOnce(env, st, Lowering(), Ioc(), [Finding()]);
  }

  lemma FirstStage(env: Env, st: Stamp)
    requires Sound(Example(env, st, Lowering())) && SourcesFor(Example(env, st, Lowering()), "IOC-1") == [Finding()]
    ensures Stage(Example(env, st, Lowering()), "IOC-1", 1) == Next(env, st, Some(Lowering()), Ioc(), [Finding()])
  {
    hide Next, SourcesFor, Ordered, Standing, Commit, Replayable;
    Prefixes();
    OrderedOne(Lowering());
    EntryInOrder([Lowering()], Lowering());
    ThreeTimes(env, st, Some(Lowering()), Ioc(), [Finding()]);
  }

  lemma OnceNotTwice(env: Env, st: Stamp)
    ensures var p := Example(env, st, Lowering());
            && Sound(p)
            && Get(Commits(p, 1)["IOC-1"], Status) != State(Approved)
            && Get(Commits(p, 2)["IOC-1"], Status) == State(Approved)
  {
    hide Erase, Commits, Commit, Standing, Replayable, SourcesFor, Stage, Next, Unblocked, ReplayableEntry;
    var p := Example(env, st, Lowering());
    Unblocks(env);
    ExampleSound(env, st, Lowering());
    StandingDistinct(p.lay, p.items);
    Prefixes();
    RevivedApprovalShows(p, Lowering());
    CommitsAreStages(p, 1);
    FirstStage(env, st);
    FirstLeaves(env, st);
    EraseGet(Commits(p, 1)["IOC-1"], Stage(p, "IOC-1", 1), Status);
  }

  /** Uninterrupted, the commit skips the approval; with a crash between its last save and the
      log, the next attempt makes it. */
  lemma CrashCanApprove(env: Env, st: Stamp) returns (m: nat, n: nat)
    ensures Fits(Files(), Start(Lowering()))
    ensures var s := System(Start(Lowering()), Idle);
            var once := Run(env, Files(), "", s, WholeAttempt(st, m)).disk;
            var cut := Run(env, Files(), "", s, CutAttempt(st) + WholeAttempt(st, n)).disk;
            && once.pending.None? && once.processing.None? && cut.pending.None? && cut.processing.None?
            && "IOC-1" in Load(once) && Get(Load(once)["IOC-1"], Status) != State(Approved)
            && "IOC-1" in Load(cut) && Get(Load(cut)["IOC-1"], Status) == State(Approved)
  {
    hide Run, WholeAttempt, CutAttempt, Commits, Load, Fits, Sound, ReplayableEntry;
    Unblocks(env);
    OnceNotTwice(env, st);
    m, n := TwoRuns(env, st, Lowering());
  }
}
