/** The documents behind the index: texts cut by the chunker and lists of JSON records. Both
    number their records apart, which is what the refresh relies on. */
module IndexDocuments {
  import opened Options
  import opened RecordIds
  import opened Chunker
  import opened IndexRefresh
  import opened IndexTheorems
  import opened IndexRebuild

  /** The records of a JSON list or of JSON lines: each candidate keeps its position as its
      number, and one that does not normalize is dropped. */
  function Enumerated(candidates: seq<Option<string>>): seq<Piece> {
    if candidates == [] then []
    else
      var n := |candidates| - 1;
      Enumerated(candidates[..n]) +
      (if candidates[n].Some? then [Piece(n, candidates[n].value)] else [])
  }

  method NumberRecords(candidates: seq<Option<string>>) returns (pieces: seq<Piece>)
    ensures pieces == Enumerated(candidates)
  {
    pieces := [];
    for i := 0 to |candidates|
      invariant pieces == Enumerated(candidates[..i])
    {
      assert candidates[..i + 1][..i] == candidates[..i];
      if candidates[i].Some? { pieces := pieces + [Piece(i, candidates[i].value)]; }
    }
    assert candidates[..|candidates|] == candidates;
  }

  predicate Growing(ps: seq<Piece>) {
    forall i, j :: 0 <= i < j < |ps| ==> ps[i].number < ps[j].number
  }

  predicate Drawn(ps: seq<Piece>, candidates: seq<Option<string>>) {
    forall i :: 0 <= i < |ps| ==>
      ps[i].number < |candidates| && candidates[ps[i].number] == Some(ps[i].payload)
  }

  /** Every candidate that normalizes is among the pieces, under its position. */
  predicate Complete(ps: seq<Piece>, candidates: seq<Option<string>>) {
    forall n :: 0 <= n < |candidates| && candidates[n].Some? ==> Piece(n, candidates[n].value) in ps
  }

  /** Exactly the candidates that normalize, in order, under strictly growing numbers. */
  lemma {:induction false} EnumeratedGrows(candidates: seq<Option<string>>)
    ensures Growing(Enumerated(candidates)) && Drawn(Enumerated(candidates), candidates)
    ensures Complete(Enumerated(candidates), candidates)
  {
    if candidates != [] {
      var n := |candidates| - 1;
      EnumeratedGrows(candidates[..n]);
      var front, ps := Enumerated(candidates[..n]), Enumerated(candidates);
      forall i | 0 <= i < |front| ensures ps[i] == front[i] && front[i].number < n {}
      if candidates[n].None? { assert ps == front; }
      forall k | 0 <= k < |candidates| && candidates[k].Some? ensures Piece(k, candidates[k].value) in ps {
        if k < n { assert candidates[..n][k] == candidates[k] && Piece(k, candidates[k].value) in front; }
      }
    }
  }

  /** The chunks of a text as the index takes them; `render` joins text and metadata. */
  function PiecesOf(render: Chunk -> string, chunks: seq<Chunk>): (ps: seq<Piece>)
    ensures |ps| == |chunks|
    ensures forall k :: 0 <= k < |chunks| ==> ps[k] == Piece(chunks[k].number, render(chunks[k]))
  {
    if chunks == [] then []
    else PiecesOf(render, chunks[..|chunks|-1]) + [Piece(chunks[|chunks|-1].number, render(chunks[|chunks|-1]))]
  }

  /** The index files a chunk under the id the chunker gave it. */
  lemma ChunksKeepTheirIds(env: Env, r: Rel, render: Chunk -> string, chunks: seq<Chunk>, file: string, k: nat)
    requires Labelled(chunks, env.stem(r), file, USER) && k < |chunks|
    ensures RecordsFrom(env, r, PiecesOf(render, chunks))[k] == Record(chunks[k].id, render(chunks[k]))
  {
    hide RecordId, Sanitize;
  }

  ghost predicate FromText(env: Env, r: Rel, ps: seq<Piece>) {
    exists render: Chunk -> string, chunks: seq<Chunk>, file :: Labelled(chunks, env.stem(r), file, USER) && ps == PiecesOf(render, chunks)
  }

  ghost predicate FromJson(ps: seq<Piece>) {
    exists candidates :: ps == Enumerated(candidates)
  }

  /** Every document is a chunked text or a list of JSON records; one that is refused, too large
      or unreadable is the empty list. */
  ghost predicate Documents(env: Env) {
    forall r, c :: FromText(env, r, env.pieces(r, c)) || FromJson(env.pieces(r, c))
  }

  lemma TextNumbers(env: Env, r: Rel, ps: seq<Piece>, i: nat, j: nat)
    requires FromText(env, r, ps) && i < j < |ps|
    ensures ps[i].number != ps[j].number
  {
    hide RecordId, Sanitize;
    var render: Chunk -> string, chunks: seq<Chunk>, file :| Labelled(chunks, env.stem(r), file, USER) && ps == PiecesOf(render, chunks);
    assert chunks[i].number == i && chunks[j].number == j;
  }

  lemma JsonNumbers(ps: seq<Piece>, i: nat, j: nat)
    requires FromJson(ps) && i < j < |ps|
    ensures ps[i].number != ps[j].number
  {
    var candidates :| ps == Enumerated(candidates);
    EnumeratedGrows(candidates);
    assert Growing(ps);
  }

  /** So the records of every document carry different numbers. */
  lemma DocumentsAreNumbered(env: Env)
    requires Documents(env)
    ensures Numbered(env)
  {
    hide FromText, FromJson;
    forall r, c, i, j | 0 <= i < j < |env.pieces(r, c)|
      ensures env.pieces(r, c)[i].number != env.pieces(r, c)[j].number
    {
      if FromText(env, r, env.pieces(r, c)) {
        TextNumbers(env, r, env.pieces(r, c), i, j);
      } else {
        JsonNumbers(env.pieces(r, c), i, j);
      }
    }
  }

  /** Over every run on such documents, as long as each watched file yields a record: the index
      is the rebuild, the next check is quiet, and the counters match the growth. */
  lemma DocumentsRunIsRebuild(env: Env, start: map<string, string>, rounds: seq<Round>)
    requires Documents(env) && Injective(env) && Bare(start) && Runs(env, start, rounds) && rounds != []
    requires forall i :: 0 <= i < |rounds| ==> AllYield(env, rounds[i].files)
    ensures var db := Reached(env, start, rounds);
            var files := rounds[|rounds|-1].files;
            && Agree(env, db.index, files) && SameRest(start, db.index)
            && Exact(env, db.state, files, Changes([], [], []))
            && |db.index| - |start| == db.added - db.removed
  {
    DocumentsAreNumbered(env);
    FullRunIsRebuild(env, start, rounds);
  }
}
