/** The approval-commit ledger of the database path: which approvals of a batch it attests. */
module ReviewLedger {

  /** An action of the batch: its id and whether its lower-cased word is "approve". */
  datatype Act = Act(id: string, approve: bool)

  datatype Event = Event(id: string, timeline: bool, hash: string)

  /** What the authority holds after its transition: the ids it skipped, and the content
      hashes read back (empty where a row has none; no row where the read-back failed). */
  datatype Authority = Authority(skipped: set<string>, findings: map<string, string>, timeline: map<string, string>)

  predicate IsTimeline(id: string) {
    "T-" <= id
  }

  function HashOf(db: Authority, id: string): string {
    var rows := if IsTimeline(id) then db.timeline else db.findings;
    if id in rows then rows[id] else ""
  }

  /** What becomes of each action; `appendOk` says whether the ledger takes the i-th event. */
  datatype Fate = Other | Skipped | Appended | Failed

  function FateOf(db: Authority, a: Act, appendOk: bool): Fate {
    if !a.approve || a.id == "" then Other
    else if a.id in db.skipped then Skipped
    else if HashOf(db, a.id) == "" || !appendOk then Failed
    else Appended
  }

  function Attested(db: Authority, acts: seq<Act>, appendOk: nat -> bool): seq<Event> {
    if acts == [] then []
    else
      var n := |acts| - 1;
      Attested(db, acts[..n], appendOk) +
      (if FateOf(db, acts[n], appendOk(n)) == Appended then
         [Event(acts[n].id, IsTimeline(acts[n].id), HashOf(db, acts[n].id))]
       else [])
  }

  function Failures(db: Authority, acts: seq<Act>, appendOk: nat -> bool): seq<string> {
    if acts == [] then []
    else
      var n := |acts| - 1;
      Failures(db, acts[..n], appendOk) +
      (if FateOf(db, acts[n], appendOk(n)) == Failed then [acts[n].id] else [])
  }

  class Ledger {
    var events: seq<Event>

    /** The loop after the authoritative transition: the ledger only grows. */
    method Attest(db: Authority, acts: seq<Act>, appendOk: nat -> bool) returns (failures: seq<string>)
      modifies this
      ensures events == old(events) + Attested(db, acts, appendOk)
      ensures failures == Failures(db, acts, appendOk)
    {
      failures := [];
      for i := 0 to |acts|
        invariant events == old(events) + Attested(db, acts[..i], appendOk)
        invariant failures == Failures(db, acts[..i], appendOk)
      {
        assert acts[..i + 1][..i] == acts[..i];
        var a := acts[i];
        if !a.approve { continue; }
        if a.id == "" { continue; }
        if a.id in db.skipped { continue; }
        var hash := HashOf(db, a.id);
        if hash == "" {
          failures := failures + [a.id];
          continue;
        }
        if appendOk(i) {
          events := events + [Event(a.id, IsTimeline(a.id), hash)];
        } else {
          failures := failures + [a.id];
        }
      }
      assert acts[..|acts|] == acts;
    }
  }

  function Count(db: Authority, acts: seq<Act>, appendOk: nat -> bool, f: Fate): nat {
    if acts == [] then 0
    else
      var n := |acts| - 1;
      Count(db, acts[..n], appendOk, f) + (if FateOf(db, acts[n], appendOk(n)) == f then 1 else 0)
  }

  function Approvals(acts: seq<Act>): nat {
    if acts == [] then 0
    else Approvals(acts[..|acts|-1]) + (if acts[|acts|-1].approve && acts[|acts|-1].id != "" then 1 else 0)
  }

  /** Every approval with an id is counted exactly once: skipped by the authority, attested, or
      reported as a failure. */
  lemma {:induction false} ApprovalsAreAccountedFor(db: Authority, acts: seq<Act>, appendOk: nat -> bool)
    ensures |Attested(db, acts, appendOk)| == Count(db, acts, appendOk, Appended)
    ensures |Failures(db, acts, appendOk)| == Count(db, acts, appendOk, Failed)
    ensures Approvals(acts) ==
            |Attested(db, acts, appendOk)| + |Failures(db, acts, appendOk)| + Count(db, acts, appendOk, Skipped)
  {
    if acts != [] { ApprovalsAreAccountedFor(db, acts[..|acts|-1], appendOk); }
  }

  /** Every attested event is an approval of the batch that the authority did not skip, bound to
      the authority's own content hash; no skipped id is attested or reported. */
  lemma {:induction false} OnlyApprovedIsAttested(db: Authority, acts: seq<Act>, appendOk: nat -> bool)
    ensures forall e :: e in Attested(db, acts, appendOk) ==>
              && e.id !in db.skipped && e.hash != "" && e.hash == HashOf(db, e.id)
              && Act(e.id, true) in acts && (e.timeline <==> |e.id| >= 2 && e.id[0] == 'T' && e.id[1] == '-')
              && (e.timeline ==> e.id in db.timeline && e.hash == db.timeline[e.id])
              && (!e.timeline ==> e.id in db.findings && e.hash == db.findings[e.id])
    ensures forall id :: id in Failures(db, acts, appendOk) ==> id !in db.skipped && Act(id, true) in acts
  {
    if acts != [] {
      var n := |acts| - 1;
      OnlyApprovedIsAttested(db, acts[..n], appendOk);
      assert acts == acts[..n] + [acts[n]];
    }
  }

  /** Every approval with an id that the authority did not skip is attested when its own table has
      a hash for it and the ledger takes the event, and reported as a failure otherwise. */
  lemma {:induction false} EveryApprovalIsTreated(db: Authority, acts: seq<Act>, appendOk: nat -> bool, i: nat)
    requires i < |acts| && acts[i].approve && acts[i].id != "" && acts[i].id !in db.skipped
    ensures var id := acts[i].id;
            var timeline := |id| >= 2 && id[..2] == "T-";
            var rows := if timeline then db.timeline else db.findings;
            if id in rows && rows[id] != "" && appendOk(i) then
              Event(id, timeline, rows[id]) in Attested(db, acts, appendOk)
            else id in Failures(db, acts, appendOk)
  {
    var n := |acts| - 1;
    assert IsTimeline(acts[i].id) <==> |acts[i].id| >= 2 && acts[i].id[..2] == "T-";
    if i < n { EveryApprovalIsTreated(db, acts[..n], appendOk, i); }
  }
}
