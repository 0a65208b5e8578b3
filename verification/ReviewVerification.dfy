/** Verification of items against the approval log, over whole histories of commits:
    commits alone never make an item read as tampered, and changing an approved item
    behind their back always does. */
module ReviewVerification {
  import opened Options
  import opened ReviewModel
  import opened ReviewEngine
  import opened ReviewBooks
  import opened ReviewCoupling

  datatype Verification = IsDraft | NoApprovalRecord | Tampered | Confirmed | Unverified

  /** `item.get("status", "DRAFT")`. */
  function StatusOf(x: Item): Value {
    if Status in x then x[Status] else State(Draft)
  }

  /** The last log record of an id; records without an id are not counted. */
  function LastRecord(log: seq<LogRecord>, id: ItemId): Option<LogRecord> {
    if log == [] || id == "" then None
    else if log[|log|-1].id == id then Some(log[|log|-1])
    else LastRecord(log[..|log|-1], id)
  }

  function VerifyItem(env: Env, x: Item, last: Option<LogRecord>): Verification {
    if StatusOf(x) == State(Draft) then IsDraft
    else if last.None? || State(last.value.action) != StatusOf(x) then NoApprovalRecord
    else
      var recomputed := HashOf(env, x);
      var stored := Get(x, ContentHash);
      var approved := last.value.contentHash;
      if (Truthy(stored) && stored != Text(recomputed)) || (approved != "" && approved != recomputed) then Tampered
      else if Truthy(stored) || approved != "" then Confirmed
      else Unverified
  }

  /** Whether the item stores, or its record carries, a hash, and whether those present are the
      digest of the content. */
  predicate HasHash(x: Item, r: LogRecord) {
    Truthy(Get(x, ContentHash)) || r.contentHash != ""
  }

  predicate HashesAgree(env: Env, x: Item, r: LogRecord) {
    && (Truthy(Get(x, ContentHash)) ==> Get(x, ContentHash) == Text(env.digest(Content(x))))
    && (r.contentHash != "" ==> r.contentHash == env.digest(Content(x)))
  }

  /** When exactly an item reads what: a draft by its status alone; otherwise without a record
      that names its status, no approval record; otherwise by the hashes it stores and the record
      carries. */
  lemma VerdictMeans(env: Env, x: Item, last: Option<LogRecord>)
    ensures var verdict := VerifyItem(env, x, last);
            var draft := Status !in x || x[Status] == State(Draft);
            var named := last.Some? && Status in x && x[Status] == State(last.value.action);
            && (verdict == IsDraft <==> draft)
            && (verdict == NoApprovalRecord <==> !draft && !named)
            && (verdict == Confirmed <==>
                  !draft && named && HasHash(x, last.value) && HashesAgree(env, x, last.value))
            && (verdict == Tampered <==> !draft && named && !HashesAgree(env, x, last.value))
            && (verdict == Unverified <==> !draft && named && !HasHash(x, last.value))
  {
    hide Content;
  }

  /** The two loops of the verification: collect the last record of each id, then judge
      each item. */
  method VerifyItems(env: Env, log: seq<LogRecord>, ids: seq<ItemId>, items: map<ItemId, Item>)
    returns (verdicts: seq<Verification>)
    requires forall id :: id in ids ==> id in items
    ensures |verdicts| == |ids|
    ensures forall i :: 0 <= i < |ids| ==>
              verdicts[i] == VerifyItem(env, items[ids[i]], LastRecord(log, ids[i]))
  {
    var last: map<ItemId, LogRecord> := map[];
    for i := 0 to |log|
      invariant forall id :: id in last <==> LastRecord(log[..i], id).Some?
      invariant forall id :: id in last ==> LastRecord(log[..i], id) == Some(last[id])
    {
      assert log[..i + 1][..i] == log[..i];
      if log[i].id != "" { last := last[log[i].id := log[i]]; }
    }
    assert log[..|log|] == log;
    verdicts := [];
    for i := 0 to |ids|
      invariant |verdicts| == i
      invariant forall j :: 0 <= j < i ==>
                  verdicts[j] == VerifyItem(env, items[ids[j]], LastRecord(log, ids[j]))
    {
      var record := if ids[i] in last then Some(last[ids[i]]) else None;
      verdicts := verdicts + [VerifyItem(env, items[ids[i]], record)];
    }
  }

  // ---- Histories ------------------------------------------------------------

  datatype Round = Round(st: Stamp, entries: seq<Entry>)

  datatype Case = Case(items: map<ItemId, Item>, log: seq<LogRecord>)

  /** One commit with all its log writes; a commit that raises changes nothing. */
  function After(env: Env, lay: Layout, c: Case, round: Round): (r: Case)
    requires forall id :: id in lay.All() ==> id in c.items
    ensures r.items.Keys == c.items.Keys
  {
    match Commit(env, round.st, lay, c.items, round.entries)
    case None => c
    case Some(w) => Case(w.items, c.log + w.log)
  }

  /** The case after a whole history of commits, starting from an empty log. */
  function History(env: Env, lay: Layout, items: map<ItemId, Item>, rounds: seq<Round>): (r: Case)
    requires forall id :: id in lay.All() ==> id in items
    ensures r.items.Keys == items.Keys
  {
    if rounds == [] then Case(items, [])
    else After(env, lay, History(env, lay, items, rounds[..|rounds|-1]), rounds[|rounds|-1])
  }

  // ---- What every step keeps ------------------------------------------------

  /** The stored hash is absent or that of the current content. */
  predicate HashOk(env: Env, x: Item) {
    !Truthy(Get(x, ContentHash)) || Get(x, ContentHash) == Text(HashOf(env, x))
  }

  /** The last record of an item speaks about its current content and status. */
  predicate Attested(env: Env, x: Item, last: Option<LogRecord>) {
    && HashOk(env, x)
    && (last.Some? ==>
          var r := last.value;
          && (r.contentHash != "" ==> r.contentHash == HashOf(env, x))
          && (r.action == Approved ==> StatusOf(x) == State(Approved))
          && (r.action == Approved || r.action == Edited ==>
                r.contentHash == HashOf(env, x) && Get(x, ContentHash) == Text(HashOf(env, x)))
          && (r.action == Rejected ==> StatusOf(x) == State(Rejected) && r.contentHash == "")
          && (r.action == Approved || r.action == Rejected || r.action == Edited))
  }

  ghost predicate AllAttested(env: Env, items: map<ItemId, Item>, log: seq<LogRecord>) {
    forall id :: id in items && !IsIocId(id) ==> Attested(env, items[id], LastRecord(log, id))
  }

  lemma ApproveHash(env: Env, st: Stamp, e: Entry, x: Item)
    requires !IsIocId(e.id)
    ensures var y := ApproveItem(env, st, e, x);
            Get(y, ContentHash) == Text(HashOf(env, y)) && StatusOf(y) == State(Approved)
  {
    hide ApplyMods, ApproveItem, AgreeOffBooks, Content;
    ApproveBooks(env, st, e, x);
    BooksAgree(env, ApplyMods(st, x, e.mods), ApproveItem(env, st, e, x));
  }

  lemma EditHash(env: Env, st: Stamp, e: Entry, x: Item)
    ensures var y := EditItem(env, st, e, x);
            Get(y, ContentHash) == Text(HashOf(env, y)) && StatusOf(y) == StatusOf(x)
  {
    hide ApplyMods, EditItem, AgreeOffBooks, Content;
    EditBooks(env, st, e, x);
    BooksAgree(env, ApplyMods(st, x, e.mods), EditItem(env, st, e, x));
    ApplyModsKeeps(st, x, e.mods, Status);
    StatusDomain(st, x, e.mods);
  }

  lemma {:induction false} StatusDomain(st: Stamp, x: Item, ms: seq<FieldMod>)
    ensures Status in ApplyMods(st, x, ms) <==> Status in x
  {
    if ms != [] { StatusDomain(st, x, ms[..|ms|-1]); }
  }

  lemma RejectHash(env: Env, st: Stamp, e: Entry, x: Item)
    requires !IsIocId(e.id)
    ensures var y := RejectItem(st, e, x);
            && HashOf(env, y) == HashOf(env, x)
            && Get(y, ContentHash) == Get(x, ContentHash)
            && StatusOf(y) == State(Rejected)
  {
    hide RejectItem, AgreeOffBooks, Content;
    RejectBooks(st, e, x);
    BooksAgree(env, x, RejectItem(st, e, x));
  }

  lemma CoupleHash(env: Env, st: Stamp, x: Item, ss: Value)
    ensures var y := CoupleItem(env, st, x, ss);
            && HashOf(env, y) == HashOf(env, x)
            && (CoupleApproves(x, ss) ==>
                  Get(y, ContentHash) == Text(HashOf(env, y)) && StatusOf(y) == State(Approved))
            && (CoupleRejects(x, ss) ==>
                  Get(y, ContentHash) == Get(x, ContentHash) && StatusOf(y) == State(Rejected))
            && (!CoupleApproves(x, ss) && !CoupleRejects(x, ss) ==> y == x)
  {
    hide CoupleItem, CoupleApproves, CoupleRejects, AgreeOffBooks, Content;
    CoupleBooks(env, st, x, ss);
    BooksAgree(env, x, CoupleItem(env, st, x, ss));
  }

  /** A direct action attests the item it changes. */
  lemma DirectAttests(env: Env, st: Stamp, e: Entry, x: Item)
    requires !IsIocId(e.id) && Applies(e, x)
    requires HashOk(env, x)
    ensures var y := DirectItem(env, st, e, x);
            Attested(env, y, Some(DirectRecord(e, x, y)))
  {
    hide ApproveItem, EditItem, RejectItem, HashOf, Conflict;
    match e.action
    case Approve => ApproveHash(env, st, e, x);
    case Edit => EditHash(env, st, e, x);
    case Reject => RejectHash(env, st, e, x);
  }

  lemma LastOfMore(log: seq<LogRecord>, r: LogRecord, id: ItemId)
    ensures LastRecord(log + [r], id) ==
            if r.id == id && id != "" then Some(r) else LastRecord(log, id)
  {
    assert (log + [r])[..|log|] == log;
  }

  lemma DirectStepAttests(env: Env, st: Stamp, w: Work, log: seq<LogRecord>, e: Entry)
    requires AllAttested(env, w.items, log + w.log)
    ensures var u := DirectStep(env, st, w, e);
            AllAttested(env, u.items, log + u.log)
  {
    hide Attested, DirectItem, DirectRecord, Applies, Conflict, FirstConflict, LastRecord;
    var u := DirectStep(env, st, w, e);
    if e.id in w.items && Applies(e, w.items[e.id]) {
      var x := w.items[e.id];
      var r := DirectRecord(e, x, u.items[e.id]);
      RecordNames(e, x, u.items[e.id]);
      assert log + u.log == log + w.log + [r];
      forall id | id in u.items && !IsIocId(id) ensures Attested(env, u.items[id], LastRecord(log + u.log, id)) {
        LastOfMore(log + w.log, r, id);
        if id == e.id {
          AttestedParts(env, x, LastRecord(log + w.log, id));
          DirectAttests(env, st, e, x);
          NoLastForEmpty(log + w.log, id);
          AttestedParts(env, u.items[id], Some(r));
        }
      }
    }
  }

  lemma RecordNames(e: Entry, x: Item, y: Item)
    ensures DirectRecord(e, x, y).id == e.id
  {
  }

  lemma AttestedParts(env: Env, x: Item, last: Option<LogRecord>)
    requires Attested(env, x, last)
    ensures HashOk(env, x) && Attested(env, x, None)
  {
  }

  lemma NoLastForEmpty(log: seq<LogRecord>, id: ItemId)
    ensures id == "" ==> LastRecord(log, id).None?
  {
  }

  lemma {:induction false} DirectAllAttest(env: Env, st: Stamp, w: Work, log: seq<LogRecord>, es: seq<Entry>)
    requires AllAttested(env, w.items, log + w.log)
    ensures var u := Direct(env, st, w, es);
            AllAttested(env, u.items, log + u.log)
  {
    hide DirectStep;
    if es != [] {
      DirectAllAttest(env, st, w, log, es[..|es|-1]);
      DirectStepAttests(env, st, Direct(env, st, w, es[..|es|-1]), log, es[|es|-1]);
    }
  }

  /** So does a coupled approval or rejection. */
  lemma CoupleAttests(env: Env, st: Stamp, id: ItemId, x: Item, ss: Value, log: seq<LogRecord>)
    requires Attested(env, x, LastRecord(log, id))
    ensures var y := CoupleItem(env, st, x, ss);
            Attested(env, y, LastRecord(log + CoupleLog(id, x, ss, y), id))
  {
    hide CoupleItem, HashOf, CoupleApproves, CoupleRejects, LastRecord;
    var y := CoupleItem(env, st, x, ss);
    CoupleHash(env, st, x, ss);
    NoLastForEmpty(log, id);
    var rs := CoupleLog(id, x, ss, y);
    if rs == [] {
      assert log + rs == log;
    } else {
      assert rs == [rs[0]];
      LastOfMore(log, rs[0], id);
    }
  }

  lemma CoupleStepAttests(env: Env, st: Stamp, w: Work, log: seq<LogRecord>, id: ItemId)
    requires id in w.items
    requires AllAttested(env, w.items, log + w.log)
    ensures var u := CoupleStep(env, st, w, id);
            AllAttested(env, u.items, log + u.log)
  {
    hide Attested, CoupleItem, LastRecord, SourceStatus;
    var u := CoupleStep(env, st, w, id);
    var x := w.items[id];
    var ss := SourceStatus(w.items, x);
    var rs := CoupleLog(id, x, ss, u.items[id]);
    assert log + u.log == log + w.log + rs;
    forall i | i in u.items && !IsIocId(i) ensures Attested(env, u.items[i], LastRecord(log + u.log, i)) {
      if i == id {
        CoupleAttests(env, st, id, x, ss, log + w.log);
      } else if rs == [] {
        assert log + w.log + rs == log + w.log;
      } else {
        assert rs == [rs[0]];
        LastOfMore(log + w.log, rs[0], i);
      }
    }
  }

  lemma {:induction false} CoupleAllAttest(env: Env, st: Stamp, w: Work, log: seq<LogRecord>, ids: seq<ItemId>)
    requires forall id :: id in ids ==> id in w.items
    requires AllAttested(env, w.items, log + w.log)
    ensures var u := Couple(env, st, w, ids);
            AllAttested(env, u.items, log + u.log)
  {
    hide CoupleStep;
    if ids != [] {
      CoupleAllAttest(env, st, w, log, ids[..|ids|-1]);
      CoupleStepAttests(env, st, Couple(env, st, w, ids[..|ids|-1]), log, ids[|ids|-1]);
    }
  }

  /** The cascade touches IOCs and their log records only. */
  lemma {:induction false} CascadeAllAttest(env: Env, st: Stamp, w: Work, log: seq<LogRecord>, ids: seq<ItemId>)
    requires forall id :: id in ids ==> id in w.items && IsIocId(id)
    requires Cascade(env, st, w, ids).Some?
    requires AllAttested(env, w.items, log + w.log)
    ensures var u := Cascade(env, st, w, ids).value;
            AllAttested(env, u.items, log + u.log)
  {
    hide Attested, CascadeItem, CascadeRaises, LastRecord, Sources, CascadeApproves, CascadeRejects, CascadeRanks;
    if ids != [] {
      var id := ids[|ids|-1];
      CascadeAllAttest(env, st, w, log, ids[..|ids|-1]);
      var v := Cascade(env, st, w, ids[..|ids|-1]).value;
      var u := Cascade(env, st, w, ids).value;
      var rs := CascadeLog(id, v.items[id], Sources(v.items, v.items[id]));
      assert log + u.log == log + v.log + rs;
      forall i | i in u.items && !IsIocId(i) ensures Attested(env, u.items[i], LastRecord(log + u.log, i)) {
        if rs == [] {
          assert log + v.log + rs == log + v.log;
        } else {
          assert rs == [rs[0]];
          LastOfMore(log + v.log, rs[0], i);
        }
      }
    }
  }

  lemma AfterAttests(env: Env, lay: Layout, c: Case, round: Round)
    requires WellFormed(lay, c.items) && AllAttested(env, c.items, c.log)
    ensures var d := After(env, lay, c, round);
            WellFormed(lay, d.items) && AllAttested(env, d.items, d.log)
  {
    hide Direct, Couple, Cascade, AllAttested;
    if Commit(env, round.st, lay, c.items, round.entries).Some? {
      var w := Loaded(c.items);
      assert c.log + w.log == c.log;
      var d := Direct(env, round.st, w, Ordered(round.entries));
      DirectKeys(env, round.st, w, Ordered(round.entries));
      DirectAllAttest(env, round.st, w, c.log, Ordered(round.entries));
      CoupleAllAttest(env, round.st, d, c.log, lay.All());
      CascadeAllAttest(env, round.st, Reviewed(env, round.st, lay, c.items, round.entries), c.log, lay.iocs);
    }
  }

  /** Where a history may start: the stored hash of every finding and timeline event is absent
      or correct. */
  ghost predicate FreshCase(env: Env, lay: Layout, items: map<ItemId, Item>) {
    WellFormed(lay, items) &&
    forall id :: id in items && !IsIocId(id) ==> HashOk(env, items[id])
  }

  lemma {:induction false} HistoryAttests(env: Env, lay: Layout, items: map<ItemId, Item>, rounds: seq<Round>)
    requires FreshCase(env, lay, items)
    ensures var c := History(env, lay, items, rounds);
            WellFormed(lay, c.items) && AllAttested(env, c.items, c.log)
  {
    hide After;
    if rounds != [] {
      HistoryAttests(env, lay, items, rounds[..|rounds|-1]);
      AfterAttests(env, lay, History(env, lay, items, rounds[..|rounds|-1]), rounds[|rounds|-1]);
    }
  }

  // ---- The theorems ---------------------------------------------------------

  /** What an item should read, by its status and its latest applied action. */
  function Expected(status: Value, last: Option<LogRecord>, stored: bool): Verification {
    if status == State(Draft) then IsDraft
    else
      match last
      case None => NoApprovalRecord
      case Some(r) =>
        if r.action == Approved then Confirmed
        else if r.action == Rejected then (if stored then Confirmed else Unverified)
        else if status == State(Edited) then Confirmed
        else NoApprovalRecord
  }

  lemma AttestedVerifies(env: Env, x: Item, last: Option<LogRecord>)
    requires Attested(env, x, last) && HashOf(env, x) != ""
    ensures VerifyItem(env, x, last) == Expected(StatusOf(x), last, Truthy(Get(x, ContentHash)))
    ensures last.Some? && last.value.action == Approved ==> StatusOf(x) == State(Approved)
    ensures last.Some? && last.value.action == Rejected ==> StatusOf(x) == State(Rejected)
  {
    hide HashOf;
  }

  /** After any history of commits, what a finding or timeline event reads is settled by its
      status and its latest applied action: a draft exactly when its status says so or is missing,
      confirmed after an approval, and never tampered. */
  lemma HistoryVerifies(env: Env, lay: Layout, items: map<ItemId, Item>, rounds: seq<Round>, id: ItemId)
    requires FreshCase(env, lay, items)
    requires forall x :: env.digest(x) != ""
    requires id in items && !IsIocId(id)
    ensures var c := History(env, lay, items, rounds);
            var x, last := c.items[id], LastRecord(c.log, id);
            var verdict := VerifyItem(env, x, last);
            && verdict == Expected(StatusOf(x), last, Truthy(Get(x, ContentHash)))
            && verdict != Tampered
            && (verdict == IsDraft <==> Status !in x || x[Status] == State(Draft))
            && (last.Some? && last.value.action == Approved ==> verdict == Confirmed)
            && (verdict == Confirmed ==>
                  && last.Some? && Status in x && x[Status] == State(last.value.action) && x[Status] != State(Draft)
                  && HasHash(x, last.value) && HashesAgree(env, x, last.value))
  {
    hide History, LastRecord, HasHash, HashesAgree, VerifyItem, HashOf;
    HistoryAttests(env, lay, items, rounds);
    var c := History(env, lay, items, rounds);
    var last := LastRecord(c.log, id);
    assert Attested(env, c.items[id], last);
    NonEmptyHash(env, c.items[id]);
    AttestedVerifies(env, c.items[id], last);
    VerdictMeans(env, c.items[id], last);
  }

  lemma NonEmptyHash(env: Env, x: Item)
    requires forall y :: env.digest(y) != ""
    ensures HashOf(env, x) != ""
  {
    hide Content;
  }

  /** Whatever replaces an approved item outside the commits, keeping its status but not
      its content hash, reads as tampered, whichever hash it claims to store. */
  lemma ChangeIsDetected(env: Env, lay: Layout, items: map<ItemId, Item>, rounds: seq<Round>, id: ItemId, forged: Item)
    requires FreshCase(env, lay, items)
    requires forall x :: env.digest(x) != ""
    requires id in items && !IsIocId(id)
    requires var c := History(env, lay, items, rounds);
             var last := LastRecord(c.log, id);
             last.Some? && last.value.action == Approved && HashOf(env, forged) != HashOf(env, c.items[id])
    requires StatusOf(forged) == State(Approved)
    ensures VerifyItem(env, forged, LastRecord(History(env, lay, items, rounds).log, id)) == Tampered
  {
    hide History, LastRecord;
    HistoryAttests(env, lay, items, rounds);
    var c := History(env, lay, items, rounds);
    assert Attested(env, c.items[id], LastRecord(c.log, id));
  }

  // ---- Nothing changes silently ---------------------------------------------

  predicate Mentions(log: seq<LogRecord>, id: ItemId) {
    exists i :: 0 <= i < |log| && log[i].id == id
  }

  lemma MentionsMore(log: seq<LogRecord>, more: seq<LogRecord>, id: ItemId)
    ensures Mentions(log + more, id) <==> Mentions(log, id) || Mentions(more, id)
  {
    if i :| 0 <= i < |log| && log[i].id == id { assert (log + more)[i].id == id; }
    if i :| 0 <= i < |more| && more[i].id == id { assert (log + more)[|log| + i].id == id; }
  }

  ghost predicate ChangesLogged(start: map<ItemId, Item>, w: Work) {
    forall id :: id in start && id in w.items && w.items[id] != start[id] ==> Mentions(w.log, id)
  }

  lemma {:induction false} DirectLogs(env: Env, st: Stamp, w: Work, es: seq<Entry>, start: map<ItemId, Item>)
    requires ChangesLogged(start, w)
    ensures ChangesLogged(start, Direct(env, st, w, es))
  {
    hide Mentions, DirectItem, Conflict, FirstConflict, Applies, DirectRecord;
    if es != [] {
      var e := es[|es|-1];
      DirectLogs(env, st, w, es[..|es|-1], start);
      var u := Direct(env, st, w, es[..|es|-1]);
      var v := DirectStep(env, st, u, e);
      if e.id in u.items && Applies(e, u.items[e.id]) {
        var r := DirectRecord(e, u.items[e.id], v.items[e.id]);
        RecordNames(e, u.items[e.id], v.items[e.id]);
        forall id ensures Mentions(u.log, id) || id == e.id ==> Mentions(v.log, id) {
          MentionsMore(u.log, [r], id);
          OneMentions(r);
        }
      }
    }
  }

  lemma OneMentions(r: LogRecord)
    ensures Mentions([r], r.id)
  {
    assert [r][0].id == r.id;
  }

  lemma {:induction false} CoupleLogs(env: Env, st: Stamp, w: Work, ids: seq<ItemId>, start: map<ItemId, Item>)
    requires forall id :: id in ids ==> id in w.items
    requires ChangesLogged(start, w)
    ensures ChangesLogged(start, Couple(env, st, w, ids))
  {
    hide Mentions, CoupleItem, SourceStatus, CoupleApproves, CoupleRejects;
    if ids != [] {
      var id := ids[|ids|-1];
      CoupleLogs(env, st, w, ids[..|ids|-1], start);
      var u := Couple(env, st, w, ids[..|ids|-1]);
      var x := u.items[id];
      var ss := SourceStatus(u.items, x);
      var rs := CoupleLog(id, x, ss, CoupleItem(env, st, x, ss));
      CoupleHash(env, st, x, ss);
      if rs != [] { assert rs == [rs[0]]; OneMentions(rs[0]); }
      forall i ensures Mentions(u.log, i) || (rs != [] && i == id) ==> Mentions(u.log + rs, i) {
        MentionsMore(u.log, rs, i);
      }
    }
  }

  lemma {:induction false} CascadeKeepsLog(env: Env, st: Stamp, w: Work, ids: seq<ItemId>)
    requires forall id :: id in ids ==> id in w.items
    requires Cascade(env, st, w, ids).Some?
    ensures w.log <= Cascade(env, st, w, ids).value.log
  {
    hide CascadeItem, CascadeRaises;
    if ids != [] { CascadeKeepsLog(env, st, w, ids[..|ids|-1]); }
  }

  /** A commit that changes a finding or a timeline event in any way logs that id. */
  lemma EveryChangeIsLogged(env: Env, st: Stamp, lay: Layout, items: map<ItemId, Item>, es: seq<Entry>, id: ItemId)
    requires WellFormed(lay, items) && id in items && !IsIocId(id)
    requires Commit(env, st, lay, items, es).Some?
    requires Commit(env, st, lay, items, es).value.items[id] != items[id]
    ensures Mentions(Commit(env, st, lay, items, es).value.log, id)
  {
    hide Direct, Couple, Cascade, Mentions;
    var d := Direct(env, st, Loaded(items), Ordered(es));
    var w := Reviewed(env, st, lay, items, es);
    var u := Commit(env, st, lay, items, es).value;
    DirectKeys(env, st, Loaded(items), Ordered(es));
    DirectLogs(env, st, Loaded(items), Ordered(es), items);
    CoupleLogs(env, st, d, lay.All(), items);
    AfterCascade(env, st, lay, items, es, id);
    CascadeKeepsLog(env, st, w, lay.iocs);
    assert u.log == w.log + u.log[|w.log|..];
    MentionsMore(w.log, u.log[|w.log|..], id);
  }
}
