/** The baseline table of registry values: a batched import that inserts a value once and
    then only collects the operating systems it was seen on. */
module RegistryImport {
  import opened Options

  /** What makes two values the same: an absent value name counts as one more name. */
  datatype Ident = Ident(hive: string, path: string, name: Option<string>, hash: string)

  datatype Row = Row(ident: Ident, kind: string, data: string, os: seq<string>)

  datatype Sighting = Sighting(ident: Ident, kind: string, data: string, os: string)

  /** A flattened record before import. */
  datatype Raw = Raw(path: string, name: Option<string>, kind: string, data: string)

  /** Lower-casing and the truncated digest of the value data. */
  datatype Env = Env(lower: string -> string, digest: string -> string)

  function Sighted(env: Env, hive: string, os: string, r: Raw): Sighting {
    Sighting(Ident(hive, env.lower(r.path), r.name, env.digest(r.data)), r.kind, r.data, os)
  }

  function AllSighted(env: Env, hive: string, os: string, rs: seq<Raw>): (out: seq<Sighting>)
    ensures |out| == |rs|
  {
    if rs == [] then []
    else AllSighted(env, hive, os, rs[..|rs|-1]) + [Sighted(env, hive, os, rs[|rs|-1])]
  }

  // ---- One value at a time --------------------------------------------------

  datatype Table = Table(rows: seq<Row>, inserted: nat, updated: nat)

  /** The position of the row with this identity; the number of rows if there is none. */
  function Find(rows: seq<Row>, ident: Ident): (i: nat)
    ensures i <= |rows|
    ensures i < |rows| ==> rows[i].ident == ident
    ensures forall j :: 0 <= j < i ==> rows[j].ident != ident
  {
    if rows == [] then 0
    else if rows[0].ident == ident then 0
    else 1 + Find(rows[1..], ident)
  }

  function Upsert(t: Table, s: Sighting): Table {
    var i := Find(t.rows, s.ident);
    if i == |t.rows| then
      t.(rows := t.rows + [Row(s.ident, s.kind, s.data, [s.os])], inserted := t.inserted + 1)
    else if s.os in t.rows[i].os then t
    else t.(rows := t.rows[i := t.rows[i].(os := t.rows[i].os + [s.os])], updated := t.updated + 1)
  }

  function UpsertAll(t: Table, ss: seq<Sighting>): Table {
    if ss == [] then t else Upsert(UpsertAll(t, ss[..|ss|-1]), ss[|ss|-1])
  }

  lemma {:induction false} UpsertJoin(t: Table, a: seq<Sighting>, b: seq<Sighting>)
    ensures UpsertAll(t, a + b) == UpsertAll(UpsertAll(t, a), b)
  {
    hide Upsert;
    if b == [] {
      assert a + b == a;
    } else {
      UpsertJoin(t, a, b[..|b|-1]);
      assert (a + b)[..|a + b|-1] == a + b[..|b|-1];
    }
  }

  // ---- The batched import ---------------------------------------------------

  class Baseline {
    var rows: seq<Row>
    var inserted: nat
    var updated: nat

    ghost function Now(): Table
      reads this
    {
      Table(rows, inserted, updated)
    }

    method InsertBatch(batch: seq<Sighting>)
      modifies this
      ensures Now() == UpsertAll(old(Now()), batch)
    {
      for i := 0 to |batch|
        invariant Now() == UpsertAll(old(Now()), batch[..i])
      {
        assert batch[..i + 1][..i] == batch[..i];
        var s := batch[i];
        var k := 0;
        while k < |rows| && rows[k].ident != s.ident
          invariant k <= |rows|
          invariant forall j :: 0 <= j < k ==> rows[j].ident != s.ident
        {
          k := k + 1;
        }
        assert k == Find(rows, s.ident);
        if k < |rows| {
          if s.os !in rows[k].os {
            rows := rows[k := rows[k].(os := rows[k].os + [s.os])];
            updated := updated + 1;
          }
        } else {
          rows := rows + [Row(s.ident, s.kind, s.data, [s.os])];
          inserted := inserted + 1;
        }
      }
      assert batch[..|batch|] == batch;
    }

    /** Whatever the batch size, the import comes to the same as one value at a time. */
    method Import(env: Env, records: seq<Raw>, hive: string, os: string, batchSize: int)
      modifies this
      ensures Now() == UpsertAll(old(Now()), AllSighted(env, hive, os, records))
    {
      hide UpsertAll;
      var batch: seq<Sighting> := [];
      ghost var start := Now();
      ghost var done: seq<Sighting> := [];
      UpsertNone(start);
      for i := 0 to |records|
        invariant done + batch == AllSighted(env, hive, os, records[..i])
        invariant Now() == UpsertAll(start, done)
      {
        assert records[..i + 1][..i] == records[..i];
        batch := batch + [Sighted(env, hive, os, records[i])];
        assert done + batch == AllSighted(env, hive, os, records[..i + 1]);
        if |batch| >= batchSize {
          UpsertJoin(start, done, batch);
          InsertBatch(batch);
          done := done + batch;
          batch := [];
        }
      }
      assert records[..|records|] == records;
      if batch != [] {
        UpsertJoin(start, done, batch);
        InsertBatch(batch);
      } else {
        assert done + batch == done;
      }
    }
  }

  lemma UpsertNone(t: Table)
    ensures UpsertAll(t, []) == t
  {
  }

  // ---- What the table holds -------------------------------------------------

  /** One row per identity, and no operating system twice in a row. */
  ghost predicate Deduplicated(rows: seq<Row>) {
    && (forall i, j :: 0 <= i < j < |rows| ==> rows[i].ident != rows[j].ident)
    && (forall i :: 0 <= i < |rows| ==> NoRepeats(rows[i].os))
  }

  predicate NoRepeats(s: seq<string>) {
    forall i, j :: 0 <= i < j < |s| ==> s[i] != s[j]
  }

  /** The value was seen on the operating system. */
  ghost predicate Holds(rows: seq<Row>, ident: Ident, os: string) {
    exists i :: 0 <= i < |rows| && rows[i].ident == ident && os in rows[i].os
  }

  ghost predicate Mentioned(ss: seq<Sighting>, ident: Ident, os: string) {
    exists i :: 0 <= i < |ss| && ss[i].ident == ident && ss[i].os == os
  }

  lemma UpsertDeduplicates(t: Table, s: Sighting)
    requires Deduplicated(t.rows)
    ensures Deduplicated(Upsert(t, s).rows)
  {
    var i := Find(t.rows, s.ident);
    if i < |t.rows| && s.os !in t.rows[i].os {
      var os := t.rows[i].os + [s.os];
      assert NoRepeats(os) by {
        forall a, b | 0 <= a < b < |os| ensures os[a] != os[b] {
          if b == |os| - 1 { assert t.rows[i].os[a] in t.rows[i].os; }
        }
      }
    }
  }

  lemma UpsertHolds(t: Table, s: Sighting, ident: Ident, os: string)
    requires Deduplicated(t.rows)
    ensures Holds(Upsert(t, s).rows, ident, os) <==> Holds(t.rows, ident, os) || (s.ident == ident && s.os == os)
  {
    var i := Find(t.rows, s.ident);
    var u := Upsert(t, s).rows;
    if i == |t.rows| {
      assert forall k :: 0 <= k < |t.rows| ==> u[k] == t.rows[k];
      assert u[|t.rows|].ident == s.ident && s.os in u[|t.rows|].os;
    } else {
      assert u[i].ident == s.ident && s.os in u[i].os;
      assert forall o :: o in u[i].os <==> o in t.rows[i].os || o == s.os;
      assert forall k :: 0 <= k < |t.rows| && k != i ==> u[k] == t.rows[k];
    }
  }

  /** The table stays deduplicated and holds exactly what it held and what was imported. */
  lemma {:induction false} ImportMeans(t: Table, ss: seq<Sighting>)
    requires Deduplicated(t.rows)
    ensures Deduplicated(UpsertAll(t, ss).rows)
    ensures forall ident, os :: Holds(UpsertAll(t, ss).rows, ident, os) <==>
                                Holds(t.rows, ident, os) || Mentioned(ss, ident, os)
  {
    hide Upsert, Deduplicated, Holds;
    if ss != [] {
      var n := |ss| - 1;
      ImportMeans(t, ss[..n]);
      var u := UpsertAll(t, ss[..n]);
      UpsertDeduplicates(u, ss[n]);
      forall ident, os
        ensures Holds(UpsertAll(t, ss).rows, ident, os) <==> Holds(t.rows, ident, os) || Mentioned(ss, ident, os)
      {
        UpsertHolds(u, ss[n], ident, os);
        MentionedLast(ss, ident, os);
      }
    }
  }

  lemma MentionedLast(ss: seq<Sighting>, ident: Ident, os: string)
    requires ss != []
    ensures Mentioned(ss, ident, os) <==>
            Mentioned(ss[..|ss|-1], ident, os) || (ss[|ss|-1].ident == ident && ss[|ss|-1].os == os)
  {
    var n := |ss| - 1;
    if i :| 0 <= i < |ss[..n]| && ss[..n][i].ident == ident && ss[..n][i].os == os {
      assert ss[i].ident == ident && ss[i].os == os;
    }
    if i :| 0 <= i < |ss| && ss[i].ident == ident && ss[i].os == os {
      if i < n { assert ss[..n][i].ident == ident && ss[..n][i].os == os; }
    }
  }

  /** The i-th sighting is the first of the row's value, and the row's type and data are its. */
  ghost predicate FirstSeen(ss: seq<Sighting>, i: int, row: Row) {
    && 0 <= i < |ss| && ss[i].ident == row.ident && ss[i].kind == row.kind && ss[i].data == row.data
    && forall j :: 0 <= j < i ==> ss[j].ident != row.ident
  }

  ghost predicate FromFirst(ss: seq<Sighting>, row: Row) {
    exists i :: FirstSeen(ss, i, row)
  }

  ghost predicate SameValue(a: Row, b: Row) {
    a.ident == b.ident && a.kind == b.kind && a.data == b.data
  }

  /** Known rows keep their place, type and data; every new row takes its type and data from
      the first sighting of its value. */
  lemma {:induction false} RowsKeepFirstSighting(t: Table, ss: seq<Sighting>)
    requires Deduplicated(t.rows)
    ensures var u := UpsertAll(t, ss).rows;
            && |t.rows| <= |u| && (forall k :: 0 <= k < |t.rows| ==> SameValue(u[k], t.rows[k]))
            && forall k :: |t.rows| <= k < |u| ==> FromFirst(ss, u[k])
  {
    hide Deduplicated, FirstSeen;
    if ss != [] {
      var n := |ss| - 1;
      RowsKeepFirstSighting(t, ss[..n]);
      var v, u := UpsertAll(t, ss[..n]).rows, UpsertAll(t, ss).rows;
      forall k | |t.rows| <= k < |u| ensures FromFirst(ss, u[k]) {
        if k < |v| {
          var i :| FirstSeen(ss[..n], i, v[k]);
          SeenStill(ss, i, v[k], u[k]);
        } else {
          NewlySeen(t, ss, u[k]);
        }
      }
    }
  }

  lemma SeenStill(ss: seq<Sighting>, i: int, before: Row, row: Row)
    requires ss != [] && FirstSeen(ss[..|ss|-1], i, before) && SameValue(before, row)
    ensures FirstSeen(ss, i, row)
  {
    forall j | 0 <= j < i ensures ss[j].ident != row.ident { assert ss[..|ss|-1][j].ident != row.ident; }
  }

  /** A value without a row has not been seen before. */
  lemma NewlySeen(t: Table, ss: seq<Sighting>, row: Row)
    requires Deduplicated(t.rows) && ss != []
    requires var rows := UpsertAll(t, ss[..|ss|-1]).rows; Find(rows, ss[|ss|-1].ident) == |rows|
    requires var s := ss[|ss|-1]; row == Row(s.ident, s.kind, s.data, [s.os])
    ensures FirstSeen(ss, |ss| - 1, row)
  {
    hide UpsertAll, Deduplicated;
    var n := |ss| - 1;
    var rows := UpsertAll(t, ss[..n]).rows;
    ImportMeans(t, ss[..n]);
    forall j | 0 <= j < n ensures ss[j].ident != ss[n].ident {
      assert ss[..n][j].ident == ss[j].ident && ss[..n][j].os == ss[j].os;
      assert Mentioned(ss[..n], ss[j].ident, ss[j].os);
      assert Holds(rows, ss[j].ident, ss[j].os);
    }
  }

  /** Whatever the order of the imports, each value ends up with the same operating systems. */
  lemma OrderDoesNotMatter(t: Table, a: seq<Sighting>, b: seq<Sighting>)
    requires Deduplicated(t.rows)
    requires forall s :: s in a <==> s in b
    ensures forall ident, os :: Holds(UpsertAll(t, a).rows, ident, os) <==> Holds(UpsertAll(t, b).rows, ident, os)
  {
    hide UpsertAll, Deduplicated, Holds;
    ImportMeans(t, a);
    ImportMeans(t, b);
    forall ident, os ensures Mentioned(a, ident, os) <==> Mentioned(b, ident, os) {
      SameMentions(a, b, ident, os);
      SameMentions(b, a, ident, os);
    }
  }

  lemma SameMentions(a: seq<Sighting>, b: seq<Sighting>, ident: Ident, os: string)
    requires forall s :: s in a ==> s in b
    ensures Mentioned(a, ident, os) ==> Mentioned(b, ident, os)
  {
    if i :| 0 <= i < |a| && a[i].ident == ident && a[i].os == os {
      assert a[i] in b;
    }
  }

  lemma UpsertHeld(t: Table, s: Sighting)
    requires Deduplicated(t.rows) && Holds(t.rows, s.ident, s.os)
    ensures Upsert(t, s) == t
  {
    var k :| 0 <= k < |t.rows| && t.rows[k].ident == s.ident && s.os in t.rows[k].os;
    assert Find(t.rows, s.ident) == k;
  }

  lemma {:induction false} UpsertAllHeld(t: Table, ss: seq<Sighting>)
    requires Deduplicated(t.rows)
    requires forall s :: s in ss ==> Holds(t.rows, s.ident, s.os)
    ensures UpsertAll(t, ss) == t
  {
    hide Upsert, Deduplicated, Holds;
    if ss != [] {
      UpsertAllHeld(t, ss[..|ss|-1]);
      UpsertHeld(t, ss[|ss|-1]);
    }
  }

  /** Importing again, in whole or in part and in any order, changes no row and counts
      nothing as inserted or updated. */
  lemma ReimportDoesNothing(t: Table, a: seq<Sighting>, b: seq<Sighting>)
    requires Deduplicated(t.rows)
    requires forall s :: s in b ==> s in a
    ensures var u := UpsertAll(t, a);
            UpsertAll(u, b) == u && UpsertAll(Table(u.rows, 0, 0), b) == Table(u.rows, 0, 0)
  {
    hide UpsertAll, Deduplicated, Holds, Mentioned;
    var u := UpsertAll(t, a);
    ImportMeans(t, a);
    forall s | s in b ensures Holds(u.rows, s.ident, s.os) {
      MemberMentioned(a, s);
    }
    UpsertAllHeld(u, b);
    UpsertAllHeld(Table(u.rows, 0, 0), b);
  }

  lemma MemberMentioned(a: seq<Sighting>, s: Sighting)
    requires s in a
    ensures Mentioned(a, s.ident, s.os)
  {
    var i :| 0 <= i < |a| && a[i] == s;
  }

  // ---- The counters ---------------------------------------------------------

  /** How many operating systems the rows list, all together. */
  function Listed(rows: seq<Row>): nat {
    if rows == [] then 0 else Listed(rows[..|rows|-1]) + |rows[|rows|-1].os|
  }

  lemma {:induction false} ListedAt(rows: seq<Row>, i: nat, r: Row)
    requires i < |rows|
    ensures Listed(rows[i := r]) == Listed(rows) - |rows[i].os| + |r.os|
  {
    var n := |rows| - 1;
    if i < n {
      ListedAt(rows[..n], i, r);
      assert rows[i := r][..n] == rows[..n][i := r];
    } else {
      assert rows[i := r][..n] == rows[..n];
    }
  }

  /** Every row gained was counted as inserted, and every operating system gained was
      counted once, as inserted or as updated. */
  lemma {:induction false} CountersAreExact(t: Table, ss: seq<Sighting>)
    ensures var u := UpsertAll(t, ss);
            && u.inserted - t.inserted == |u.rows| - |t.rows|
            && (u.inserted + u.updated) - (t.inserted + t.updated) == Listed(u.rows) - Listed(t.rows)
  {
    if ss != [] {
      var n := |ss| - 1;
      CountersAreExact(t, ss[..n]);
      var u := UpsertAll(t, ss[..n]);
      var s := ss[n];
      var i := Find(u.rows, s.ident);
      if i == |u.rows| {
        assert (u.rows + [Row(s.ident, s.kind, s.data, [s.os])])[..|u.rows|] == u.rows;
      } else {
        ListedAt(u.rows, i, u.rows[i].(os := u.rows[i].os + [s.os]));
      }
    }
  }

  // ---- Where a record lands -------------------------------------------------

  lemma {:induction false} SightedAt(env: Env, hive: string, os: string, rs: seq<Raw>, i: nat)
    requires i < |rs|
    ensures var s := AllSighted(env, hive, os, rs)[i];
            && s.ident.hive == hive && s.ident.path == env.lower(rs[i].path) && s.ident.name == rs[i].name
            && s.ident.hash == env.digest(rs[i].data) && s.kind == rs[i].kind && s.data == rs[i].data && s.os == os
  {
    var n := |rs| - 1;
    if i < n { SightedAt(env, hive, os, rs[..n], i); }
  }

  /** Row and record are of the same value. */
  predicate RowOf(env: Env, hive: string, r: Raw, row: Row) {
    && row.ident.hive == hive && row.ident.path == env.lower(r.path) && row.ident.name == r.name
    && row.ident.hash == env.digest(r.data)
  }

  ghost predicate Landed(env: Env, hive: string, os: string, r: Raw, rows: seq<Row>) {
    exists k :: 0 <= k < |rows| && RowOf(env, hive, r, rows[k]) && os in rows[k].os
  }

  /** After an import every record has its row, under its hive, lower-cased path, name and data
      digest, listing the imported operating system; and every new row has the type and data of a
      record of it and lists that system alone. */
  lemma ImportLands(t: Table, env: Env, records: seq<Raw>, hive: string, os: string)
    requires Deduplicated(t.rows)
    ensures var u := UpsertAll(t, AllSighted(env, hive, os, records)).rows;
            && |u| >= |t.rows|
            && (forall i :: 0 <= i < |records| ==> Landed(env, hive, os, records[i], u))
            && (forall k :: |t.rows| <= k < |u| ==>
                  && u[k].os == [os]
                  && exists i :: 0 <= i < |records| && RowOf(env, hive, records[i], u[k]) &&
                                 u[k].kind == records[i].kind && u[k].data == records[i].data)
  {
    hide UpsertAll, Deduplicated, AllSighted;
    var ss := AllSighted(env, hive, os, records);
    var u := UpsertAll(t, ss).rows;
    ImportMeans(t, ss);
    RowsKeepFirstSighting(t, ss);
    forall i | 0 <= i < |records| ensures Landed(env, hive, os, records[i], u) {
      SightedAt(env, hive, os, records, i);
      MemberMentioned(ss, ss[i]);
      assert Holds(u, ss[i].ident, os);
      HoldsAt(u, ss[i].ident, os);
      var k :| 0 <= k < |u| && u[k].ident == ss[i].ident && os in u[k].os;
      assert RowOf(env, hive, records[i], u[k]);
    }
    forall i | 0 <= i < |ss| ensures ss[i].os == os { SightedAt(env, hive, os, records, i); }
    NewRowsListOne(t, ss, os);
    forall k | |t.rows| <= k < |u|
      ensures exists i :: 0 <= i < |records| && RowOf(env, hive, records[i], u[k]) &&
                          u[k].kind == records[i].kind && u[k].data == records[i].data
    {
      assert FromFirst(ss, u[k]);
      var i :| FirstSeen(ss, i, u[k]);
      SightedAt(env, hive, os, records, i);
      assert RowOf(env, hive, records[i], u[k]);
    }
  }

  lemma HoldsAt(rows: seq<Row>, ident: Ident, os: string)
    requires Holds(rows, ident, os)
    ensures exists k :: 0 <= k < |rows| && rows[k].ident == ident && os in rows[k].os
  {
  }

  lemma {:induction false} NewRowsListOne(t: Table, ss: seq<Sighting>, os: string)
    requires forall i :: 0 <= i < |ss| ==> ss[i].os == os
    ensures var u := UpsertAll(t, ss).rows;
            |u| >= |t.rows| && forall k :: |t.rows| <= k < |u| ==> u[k].os == [os]
  {
    if ss != [] { NewRowsListOne(t, ss[..|ss|-1], os); }
  }

  /** A row's list of systems only grows at its end. */
  lemma {:induction false} SystemsGrow(t: Table, ss: seq<Sighting>)
    ensures var u := UpsertAll(t, ss).rows;
            |t.rows| <= |u| && forall k :: 0 <= k < |t.rows| ==> t.rows[k].os <= u[k].os
  {
    if ss != [] { SystemsGrow(t, ss[..|ss|-1]); }
  }
}
