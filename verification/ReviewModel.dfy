/** Investigation items (findings, timeline events, IOCs), the examiner's staged
    delta and the approval log, as the review commit of the case dashboard sees them. */
module ReviewModel {

  type ItemId = string

  /** The words an item's `status` and a log record's `action` may hold. */
  datatype Word = Draft | Approved | Rejected | Edited | OtherStatus(text: string)

  /** The keys of an item. The twelve from Title to Tags are the editable fields.
      `Unhashed` stands for the keys the content hash leaves out and no commit touches
      (provenance, grounding, keys starting with an underscore); `Other` stands for
      every remaining key, all of them hashed. */
  datatype Key =
    | Status | ApprovedAt | ApprovedBy | RejectedAt | RejectedBy | RejectionReason
    | ExaminerNotes | ExaminerModifications | ContentHash | ModifiedAt
    | ManuallyReviewed | AutoCreatedFrom | SourceFindings
    | Title | Observation | Interpretation | Confidence | ConfidenceJustification
    | MitreIds | Iocs | Context | Timestamp | Description | Source | Tags
    | Unhashed(name: string)
    | Other(name: string)

  datatype Modification = Modification(original: Value, modified: Value, who: string, at: string)

  datatype Note = Note(text: string, who: string, at: string)

  /** The values of an item. `Json` is any JSON value with no other constructor here,
      given by its text and by whether Python counts it as true. */
  datatype Value =
    | Null
    | Text(s: string)
    | State(word: Word)
    | Flag(b: bool)
    | Ids(ids: seq<ItemId>)
    | Mods(mods: map<Key, Modification>)
    | Notes(notes: seq<Note>)
    | Json(text: string, truthy: bool)

  type Item = map<Key, Value>

  /** `item.get(key)`: a missing key reads as null. */
  function Get(x: Item, k: Key): Value {
    if k in x then x[k] else Null
  }

  predicate Truthy(v: Value) {
    match v
    case Null => false
    case Text(s) => s != ""
    case State(_) => true
    case Flag(b) => b
    case Ids(ids) => ids != []
    case Mods(m) => m != map[]
    case Notes(n) => n != []
    case Json(_, t) => t
  }

  predicate Editable(k: Key) {
    k.Title? || k.Observation? || k.Interpretation? || k.Confidence? ||
    k.ConfidenceJustification? || k.MitreIds? || k.Iocs? || k.Context? ||
    k.Timestamp? || k.Description? || k.Source? || k.Tags?
  }

  /** Whether a key enters the content hash. */
  predicate Hashed(k: Key) {
    Editable(k) || k.ManuallyReviewed? || k.AutoCreatedFrom? || k.SourceFindings? || k.Other?
  }

  /** The part of an item that the content hash covers. */
  function Content(x: Item): Item {
    map k | k in x && Hashed(k) :: x[k]
  }

  /** What the commit takes from its surroundings: the digest behind
      `compute_content_hash`, and Python's `str.upper`. */
  datatype Env = Env(digest: Item -> string, upper: string -> string)

  function HashOf(env: Env, x: Item): string {
    env.digest(Content(x))
  }

  /** Who commits, and when. */
  datatype Stamp = Stamp(examiner: string, now: string)

  predicate IsIocId(id: ItemId) {
    "IOC-" <= id
  }

  /** The delta's actions, by their lower-cased word. */
  datatype Action = Approve | Edit | Reject | UnknownAction

  datatype FieldMod = FieldMod(field: Key, original: Value, modified: Value)

  /** One decision of the staged delta. `mods` lists the modifications dictionary in its
      order; `reason` is the rejection reason, with its fallback key already taken. */
  datatype Entry = Entry(id: ItemId, action: Action, mods: seq<FieldMod>,
                         note: string, reason: string, hashAtReview: string)

  /** A line of the approval log; an empty hash, reason or source is left out of the line. */
  datatype LogRecord = LogRecord(id: ItemId, action: Word, contentHash: string,
                                 stale: bool, coupledFrom: string, reason: string)

  datatype SkipReason = NotFound | FieldChanged(field: Key)

  datatype Skip = Skip(id: ItemId, reason: SkipReason)

  /** The working state of one commit. */
  datatype Work = Work(items: map<ItemId, Item>, log: seq<LogRecord>,
                       skipped: seq<Skip>, iocsModified: bool)

  /** The three case files, as the order of the ids each one lists. */
  datatype Layout = Layout(findings: seq<ItemId>, timeline: seq<ItemId>, iocs: seq<ItemId>) {
    function All(): seq<ItemId> {
      findings + timeline + iocs
    }
  }

  predicate Distinct<T(==)>(s: seq<T>) {
    forall i, j :: 0 <= i < j < |s| ==> s[i] != s[j]
  }

  /** Every listed id has its item, no id is listed twice, and exactly the ids of the
      IOC file carry the IOC prefix. */
  ghost predicate WellFormed(lay: Layout, items: map<ItemId, Item>) {
    && Distinct(lay.All())
    && (forall id :: id in items <==> id in lay.All())
    && (forall id :: id in lay.All() ==> (IsIocId(id) <==> id in lay.iocs))
  }

  lemma UnhashedUpdate(env: Env, x: Item, k: Key, v: Value)
    requires !Hashed(k)
    ensures Content(x[k := v]) == Content(x)
    ensures HashOf(env, x[k := v]) == HashOf(env, x)
  {
    assert Content(x[k := v]) == Content(x);
  }

  /** The keys an examiner may edit, and of the rest those the hash leaves out. */
  lemma FieldTables(k: Key)
    ensures Editable(k) <==>
              k in {Title, Observation, Interpretation, Confidence, ConfidenceJustification, MitreIds, Iocs, Context,
                    Timestamp, Description, Source, Tags}
    ensures !Hashed(k) <==>
              k.Unhashed? || k in {Status, ApprovedAt, ApprovedBy, RejectedAt, RejectedBy, RejectionReason,
                                   ExaminerNotes, ExaminerModifications, ContentHash, ModifiedAt}
  {
  }

  /** The hash covers exactly the hashed keys: two items have the same content if and only if they
      agree on those. */
  lemma ContentMeans(x: Item, y: Item)
    ensures Content(x) == Content(y) <==> forall k :: Hashed(k) ==> (k in x <==> k in y) && Get(x, k) == Get(y, k)
  {
    if Content(x) == Content(y) {
      forall k | Hashed(k) ensures (k in x <==> k in y) && Get(x, k) == Get(y, k) {
        assert k in Content(x) <==> k in x;
        assert k in Content(y) <==> k in y;
        if k in x { assert Content(x)[k] == Content(y)[k]; }
      }
    }
    if forall k :: Hashed(k) ==> (k in x <==> k in y) && Get(x, k) == Get(y, k) {
      assert Content(x) == Content(y);
    }
  }

  /** What Python counts as false. */
  lemma FalseValues(v: Value)
    ensures !Truthy(v) <==>
              v == Null || v == Text("") || v == Flag(false) || v == Ids([]) || v == Mods(map[]) || v == Notes([]) ||
              (v.Json? && !v.truthy)
  {
  }

  lemma IocPrefix(id: ItemId)
    ensures IsIocId(id) <==> |id| >= 4 && id[0] == 'I' && id[1] == 'O' && id[2] == 'C' && id[3] == '-'
  {
  }
}
