/** The watched documents of the knowledge index: change detection and the incremental
    refresh of index and state, against a rebuild from the current files. */
module IndexRefresh {
  import opened RecordIds

  /** A file's path below the knowledge folder. */
  type Rel = string

  datatype Record = Record(id: string, payload: string)

  /** What the state file keeps of a processed file. */
  datatype Entry = Entry(hash: string, ids: seq<string>)

  /** What one file yields: numbered texts with their metadata. */
  datatype Piece = Piece(number: nat, payload: string)

  /** The stem of a path, the hash of a content, and the pieces a document is cut into. */
  datatype Env = Env(stem: Rel -> string, hash: string -> string, pieces: (Rel, string) -> seq<Piece>)

  datatype Db = Db(index: map<string, string>, state: map<Rel, Entry>, added: nat, removed: nat)

  datatype Changes = Changes(created: seq<Rel>, modified: seq<Rel>, deleted: seq<Rel>)

  const USER := "user"

  function SafeStem(env: Env, r: Rel): string {
    Sanitize(env.stem(r))
  }

  function RecordsFrom(env: Env, r: Rel, ps: seq<Piece>): (out: seq<Record>)
    ensures |out| == |ps|
    ensures forall k :: 0 <= k < |ps| ==>
              out[k] == Record(RecordId(USER, SafeStem(env, r), ps[k].number), ps[k].payload)
  {
    if ps == [] then []
    else RecordsFrom(env, r, ps[..|ps|-1]) +
         [Record(RecordId(USER, SafeStem(env, r), ps[|ps|-1].number), ps[|ps|-1].payload)]
  }

  function Records(env: Env, r: Rel, content: string): seq<Record> {
    RecordsFrom(env, r, env.pieces(r, content))
  }

  function IdsOf(rs: seq<Record>): (out: seq<string>)
    ensures |out| == |rs| && forall k :: 0 <= k < |rs| ==> out[k] == rs[k].id
  {
    if rs == [] then [] else IdsOf(rs[..|rs|-1]) + [rs[|rs|-1].id]
  }

  function EntryFor(env: Env, r: Rel, content: string): Entry {
    Entry(env.hash(content), IdsOf(Records(env, r, content)))
  }

  function StateIds(state: map<Rel, Entry>, r: Rel): seq<string> {
    if r in state then state[r].ids else []
  }

  /** `collection.delete`: ids that are not there are ignored. */
  function Without(index: map<string, string>, ids: seq<string>): map<string, string> {
    map id | id in index && id !in ids :: index[id]
  }

  /** `collection.add`: an id that is already there keeps its record. */
  function With(index: map<string, string>, rs: seq<Record>): map<string, string> {
    if rs == [] then index
    else
      var m := With(index, rs[..|rs|-1]);
      if rs[|rs|-1].id in m then m else m[rs[|rs|-1].id := rs[|rs|-1].payload]
  }

  function Drop(db: Db, r: Rel): Db {
    var ids := StateIds(db.state, r);
    Db(Without(db.index, ids), db.state - {r}, db.added, db.removed + |ids|)
  }

  function DropAll(db: Db, rs: seq<Rel>): Db {
    if rs == [] then db else Drop(DropAll(db, rs[..|rs|-1]), rs[|rs|-1])
  }

  /** A file without records leaves its state entry as it was. */
  function Put(env: Env, db: Db, r: Rel, content: string, modified: bool): Db {
    var ids := if modified then StateIds(db.state, r) else [];
    var index := Without(db.index, ids);
    var rs := Records(env, r, content);
    if rs == [] then Db(index, db.state, db.added, db.removed + |ids|)
    else Db(With(index, rs), db.state[r := EntryFor(env, r, content)], db.added + |rs|, db.removed + |ids|)
  }

  function PutAll(env: Env, db: Db, rs: seq<Rel>, files: map<Rel, string>, modified: seq<Rel>): Db
    requires forall r :: r in rs ==> r in files
  {
    if rs == [] then db
    else
      var r := rs[|rs|-1];
      Put(env, PutAll(env, db, rs[..|rs|-1], files, modified), r, files[r], r in modified)
  }

  function Refreshed(env: Env, db: Db, files: map<Rel, string>, ch: Changes): Db
    requires forall r :: r in ch.created + ch.modified ==> r in files
  {
    PutAll(env, DropAll(db, ch.deleted), ch.created + ch.modified, files, ch.modified)
  }

  predicate NoRepeats(s: seq<Rel>) {
    forall i, j :: 0 <= i < j < |s| ==> s[i] != s[j]
  }

  predicate IsNew(state: map<Rel, Entry>, files: map<Rel, string>, r: Rel) {
    r in files && r !in state
  }

  predicate IsModified(env: Env, state: map<Rel, Entry>, files: map<Rel, string>, r: Rel) {
    r in files && r in state && env.hash(files[r]) != state[r].hash
  }

  predicate IsDeleted(state: map<Rel, Entry>, files: map<Rel, string>, r: Rel) {
    r in state && r !in files
  }

  /** The change set names each change once and nothing else. */
  ghost predicate Exact(env: Env, state: map<Rel, Entry>, files: map<Rel, string>, ch: Changes) {
    && NoRepeats(ch.created) && NoRepeats(ch.modified) && NoRepeats(ch.deleted)
    && (forall r :: r in ch.created <==> IsNew(state, files, r))
    && (forall r :: r in ch.modified <==> IsModified(env, state, files, r))
    && (forall r :: r in ch.deleted <==> IsDeleted(state, files, r))
  }

  // ---- The loops ------------------------------------------------------------

  class Knowledge {
    var index: map<string, string>
    var state: map<Rel, Entry>
    var added: nat
    var removed: nat

    ghost function Now(): Db
      reads this
    {
      Db(index, state, added, removed)
    }

    /** Compare the scanned files with the state. */
    method CheckForChanges(env: Env, scan: seq<Rel>, files: map<Rel, string>) returns (ch: Changes)
      requires NoRepeats(scan) && forall r :: r in files <==> r in scan
      ensures Exact(env, state, files, ch)
    {
      var newly: seq<Rel>, changed: seq<Rel>, gone: seq<Rel> := [], [], [];
      var current: set<Rel> := {};
      for i := 0 to |scan|
        invariant NoRepeats(newly) && NoRepeats(changed)
        invariant forall r :: r in current <==> r in scan[..i]
        invariant forall r :: r in newly <==> r in scan[..i] && IsNew(state, files, r)
        invariant forall r :: r in changed <==> r in scan[..i] && IsModified(env, state, files, r)
      {
        var r := scan[i];
        assert scan[..i + 1] == scan[..i] + [r];
        assert r in scan && r !in scan[..i];
        current := current + {r};
        if r !in state {
          newly := newly + [r];
        } else if env.hash(files[r]) != state[r].hash {
          changed := changed + [r];
        }
      }
      assert scan[..|scan|] == scan;
      var rest := state.Keys;
      while rest != {}
        invariant rest <= state.Keys
        invariant NoRepeats(gone)
        invariant forall r :: r in gone <==> r in state.Keys - rest && r !in current
      {
        var r :| r in rest;
        rest := rest - {r};
        if r !in current { gone := gone + [r]; }
      }
      ch := Changes(newly, changed, gone);
    }

    method DeleteRecords(ids: seq<string>)
      modifies this`index, this`removed
      ensures index == Without(old(index), ids) && removed == old(removed) + |ids|
    {
      if ids != [] {
        index := map id | id in index && id !in ids :: index[id];
        removed := removed + |ids|;
      } else {
        assert Without(index, ids) == index;
      }
    }

    method AddRecords(rs: seq<Record>)
      modifies this`index, this`added
      ensures index == With(old(index), rs) && added == old(added) + |rs|
    {
      for i := 0 to |rs|
        invariant index == With(old(index), rs[..i]) && added == old(added)
      {
        assert rs[..i + 1][..i] == rs[..i];
        if rs[i].id !in index { index := index[rs[i].id := rs[i].payload]; }
      }
      assert rs[..|rs|] == rs;
      added := added + |rs|;
    }

    /** Apply the changes: deletions first, then new and modified files in turn. */
    method Apply(env: Env, files: map<Rel, string>, ch: Changes)
      requires forall r :: r in ch.created + ch.modified ==> r in files
      modifies this
      ensures Now() == Refreshed(env, old(Now()), files, ch)
    {
      hide DropAll, PutAll;
      DropFiles(ch.deleted);
      PutFiles(env, files, ch.created + ch.modified, ch.modified);
    }

    method DropFiles(deleted: seq<Rel>)
      modifies this
      ensures Now() == DropAll(old(Now()), deleted)
    {
      hide Without;
      for i := 0 to |deleted|
        invariant Now() == DropAll(old(Now()), deleted[..i])
      {
        assert deleted[..i + 1][..i] == deleted[..i];
        DeleteRecords(StateIds(state, deleted[i]));
        state := state - {deleted[i]};
      }
      assert deleted[..|deleted|] == deleted;
    }

    method PutFiles(env: Env, files: map<Rel, string>, todo: seq<Rel>, modified: seq<Rel>)
      requires forall r :: r in todo ==> r in files
      modifies this
      ensures Now() == PutAll(env, old(Now()), todo, files, modified)
    {
      hide Put;
      for i := 0 to |todo|
        invariant Now() == PutAll(env, old(Now()), todo[..i], files, modified)
      {
        assert todo[..i + 1][..i] == todo[..i];
        var r := todo[i];
        assert r in todo;
        PutOne(env, r, files[r], r in modified);
      }
      assert todo[..|todo|] == todo;
    }

    method PutOne(env: Env, r: Rel, content: string, modified: bool)
      modifies this
      ensures Now() == Put(env, old(Now()), r, content, modified)
    {
      if modified { DeleteRecords(StateIds(state, r)); } else { assert Without(index, []) == index; }
      var rs := Records(env, r, content);
      if rs != [] {
        AddRecords(rs);
        state := state[r := EntryFor(env, r, content)];
      }
    }
  }
}
