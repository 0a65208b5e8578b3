/** The bookkeeping fields: which keys the steps of a commit write besides the fields an
    examiner edits, and what therefore stays the same. */
module ReviewBooks {
  import opened ReviewModel
  import opened ReviewEngine

  predicate Stamped(k: Key) {
    k.ApprovedAt? || k.ApprovedBy? || k.RejectedAt? || k.RejectedBy? || k.ModifiedAt? || k.ExaminerNotes?
  }

  /** The bookkeeping keys, none of them hashed or editable. */
  predicate Book(k: Key) {
    Stamped(k) || k.Status? || k.ContentHash? || k.RejectionReason?
  }

  /** The items differ at most in their bookkeeping, and in the review flag of an IOC. */
  ghost predicate AgreeOffBooks(x: Item, y: Item, ioc: bool) {
    forall k :: !Book(k) && !(ioc && k.ManuallyReviewed?) ==> (k in x <==> k in y) && Get(x, k) == Get(y, k)
  }

  lemma BookSame(x: Item, ioc: bool)
    ensures AgreeOffBooks(x, x, ioc)
  {
  }

  lemma BookSet(x: Item, y: Item, ioc: bool, k: Key, v: Value)
    requires AgreeOffBooks(x, y, ioc) && (Book(k) || (ioc && k.ManuallyReviewed?))
    ensures AgreeOffBooks(x, y[k := v], ioc)
  {
  }

  lemma BooksAgree(env: Env, x: Item, y: Item)
    requires AgreeOffBooks(x, y, false)
    ensures forall k :: Editable(k) ==> Get(y, k) == Get(x, k) && (k in x <==> k in y)
    ensures Get(y, ExaminerModifications) == Get(x, ExaminerModifications)
    ensures SourceOf(y) == SourceOf(x) && Coupled(y) == Coupled(x)
    ensures Content(y) == Content(x) && HashOf(env, y) == HashOf(env, x)
  {
    hide Truthy;
    assert forall k :: Hashed(k) ==> !Book(k);
    assert Content(y) == Content(x);
  }

  lemma AddNoteBooks(env: Env, st: Stamp, x: Item, note: string)
    ensures AgreeOffBooks(x, AddNote(st, x, note), false) && HashOf(env, AddNote(st, x, note)) == HashOf(env, x)
  {
    hide AgreeOffBooks, NotesOf, Content;
    BookSame(x, false);
    if note != "" {
      BookSet(x, x, false, ExaminerNotes, Notes(NotesOf(x) + [Note(note, st.examiner, st.now)]));
    }
    BooksAgree(env, x, AddNote(st, x, note));
  }

  lemma Weaker(x: Item, y: Item, ioc: bool)
    requires AgreeOffBooks(x, y, false)
    ensures AgreeOffBooks(x, y, ioc)
  {
  }

  lemma ApproveBooks(env: Env, st: Stamp, e: Entry, x: Item)
    ensures var m := ApplyMods(st, x, e.mods);
            var y := ApproveItem(env, st, e, x);
            && AgreeOffBooks(m, y, IsIocId(e.id))
            && Status in y && y[Status] == State(Approved) && ContentHash in y && y[ContentHash] == Text(HashOf(env, m))
  {
    hide AgreeOffBooks, ApplyMods, AddNote, Content, HashOf;
    var ioc := IsIocId(e.id);
    var m := ApplyMods(st, x, e.mods);
    var n := AddNote(st, m, e.note);
    AddNoteBooks(env, st, m, e.note);
    Weaker(m, n, ioc);
    var a := n[ContentHash := Text(HashOf(env, n))];
    var b := a[Status := State(Approved)];
    var c := b[ApprovedAt := Text(st.now)];
    var d := c[ApprovedBy := Text(st.examiner)];
    var f := d[ModifiedAt := Text(st.now)];
    BookSet(m, n, ioc, ContentHash, Text(HashOf(env, n)));
    BookSet(m, a, ioc, Status, State(Approved));
    BookSet(m, b, ioc, ApprovedAt, Text(st.now));
    BookSet(m, c, ioc, ApprovedBy, Text(st.examiner));
    BookSet(m, d, ioc, ModifiedAt, Text(st.now));
    if ioc { BookSet(m, f, ioc, ManuallyReviewed, Flag(true)); }
  }

  lemma EditBooks(env: Env, st: Stamp, e: Entry, x: Item)
    ensures var m := ApplyMods(st, x, e.mods);
            var y := EditItem(env, st, e, x);
            && AgreeOffBooks(m, y, false)
            && (Status in m <==> Status in y) && Get(y, Status) == Get(m, Status)
            && ContentHash in y && y[ContentHash] == Text(HashOf(env, m))
  {
    hide AgreeOffBooks, ApplyMods, Content, HashOf;
    var m := ApplyMods(st, x, e.mods);
    BookSame(m, false);
    BookSet(m, m, false, ContentHash, Text(HashOf(env, m)));
    BookSet(m, m[ContentHash := Text(HashOf(env, m))], false, ModifiedAt, Text(st.now));
  }

  lemma RejectBooks(st: Stamp, e: Entry, x: Item)
    ensures var y := RejectItem(st, e, x);
            && AgreeOffBooks(x, y, IsIocId(e.id))
            && Status in y && y[Status] == State(Rejected) && Get(y, ContentHash) == Get(x, ContentHash)
            && (IsIocId(e.id) ==> Get(y, ManuallyReviewed) == Flag(true))
  {
    hide AgreeOffBooks;
    var ioc := IsIocId(e.id);
    BookSame(x, ioc);
    var a := x[Status := State(Rejected)];
    var b := a[RejectedAt := Text(st.now)];
    var c := b[RejectedBy := Text(st.examiner)];
    var d := if e.reason == "" then c else c[RejectionReason := Text(e.reason)];
    var f := if ioc then d[ManuallyReviewed := Flag(true)] else d;
    BookSet(x, x, ioc, Status, State(Rejected));
    BookSet(x, a, ioc, RejectedAt, Text(st.now));
    BookSet(x, b, ioc, RejectedBy, Text(st.examiner));
    BookSet(x, c, ioc, RejectionReason, Text(e.reason));
    if ioc { BookSet(x, d, ioc, ManuallyReviewed, Flag(true)); }
    BookSet(x, f, ioc, ModifiedAt, Text(st.now));
  }

  lemma CoupleBooks(env: Env, st: Stamp, x: Item, ss: Value)
    ensures var y := CoupleItem(env, st, x, ss);
            && AgreeOffBooks(x, y, false)
            && (CoupleApproves(x, ss) ==>
                  Status in y && y[Status] == State(Approved) && Get(y, ContentHash) == Text(HashOf(env, x)))
            && (CoupleRejects(x, ss) ==>
                  Status in y && y[Status] == State(Rejected) && Get(y, ContentHash) == Get(x, ContentHash))
            && (!CoupleApproves(x, ss) && !CoupleRejects(x, ss) ==> y == x)
  {
    hide AgreeOffBooks, Coupled, Content, HashOf;
    BookSame(x, false);
    if CoupleApproves(x, ss) {
      var a := x[Status := State(Approved)];
      var b := a[ApprovedAt := Text(st.now)];
      var c := b[ApprovedBy := Text(st.examiner)];
      var d := c[ModifiedAt := Text(st.now)];
      BookSet(x, x, false, Status, State(Approved));
      BookSet(x, a, false, ApprovedAt, Text(st.now));
      BookSet(x, b, false, ApprovedBy, Text(st.examiner));
      BookSet(x, c, false, ModifiedAt, Text(st.now));
      BooksAgree(env, x, d);
      BookSet(x, d, false, ContentHash, Text(HashOf(env, d)));
    } else if CoupleRejects(x, ss) {
      var a := x[Status := State(Rejected)];
      var b := a[RejectedAt := Text(st.now)];
      var c := b[RejectedBy := Text(st.examiner)];
      var d := c[RejectionReason := Text("Source finding rejected")];
      BookSet(x, x, false, Status, State(Rejected));
      BookSet(x, a, false, RejectedAt, Text(st.now));
      BookSet(x, b, false, RejectedBy, Text(st.examiner));
      BookSet(x, c, false, RejectionReason, Text("Source finding rejected"));
      BookSet(x, d, false, ModifiedAt, Text(st.now));
    }
  }

  // ---- Fields a decision names ----------------------------------------------

  predicate Names(ms: seq<FieldMod>, k: Key) {
    exists i :: 0 <= i < |ms| && ms[i].field == k
  }

  lemma NamesNothing(k: Key)
    ensures !Names([], k)
  {
  }

  lemma NamesLast(ms: seq<FieldMod>, k: Key)
    requires ms != []
    ensures Names(ms, k) <==> Names(ms[..|ms|-1], k) || ms[|ms|-1].field == k
  {
    var n := |ms| - 1;
    if i :| 0 <= i < n && ms[..n][i].field == k { assert ms[i].field == k; }
    if i :| 0 <= i < |ms| && ms[i].field == k { if i < n { assert ms[..n][i].field == k; } }
  }

  lemma NamesSome(ms: seq<FieldMod>, k: Key)
    ensures Names(ms, k) ==> ms != []
  {
  }
}
