/** Cutting a text document into chunks at section boundaries. */
module Chunker {
  import opened RecordIds

  const CHUNK_TARGET: nat := 1000
  const CHUNK_MIN: nat := 500
  const CHUNK_MAX: nat := 1500

  datatype Chunk = Chunk(id: string, text: string, source: string, file: string, number: nat)

  // ---- Splitting ------------------------------------------------------------

  /** One to three number signs and a blank. */
  predicate Heading(s: string) {
    "# " <= s || "## " <= s || "### " <= s
  }

  /** Markdown is split at the newline before each heading, which goes. */
  function SplitHeadings(s: string): (pieces: seq<string>)
    ensures pieces != []
  {
    if s == "" then [""]
    else
      var rest := SplitHeadings(s[1..]);
      if s[0] == '\n' && Heading(s[1..]) then [""] + rest else [[s[0]] + rest[0]] + rest[1..]
  }

  function DropNewlines(s: string): (r: string)
    ensures |r| <= |s|
    ensures r == "" || r[0] != '\n'
  {
    if s != "" && s[0] == '\n' then DropNewlines(s[1..]) else s
  }

  /** Any other text is split at every run of two newlines or more, which goes. */
  function SplitParagraphs(s: string): (pieces: seq<string>)
    ensures pieces != []
    decreases |s|
  {
    if s == "" then [""]
    else if "\n\n" <= s then [""] + SplitParagraphs(DropNewlines(s[2..]))
    else
      var rest := SplitParagraphs(s[1..]);
      [[s[0]] + rest[0]] + rest[1..]
  }

  function SplitText(markdown: bool, text: string): seq<string> {
    if markdown then SplitHeadings(text) else SplitParagraphs(text)
  }

  /** The pieces of a markdown text, with their newlines put back, are the text. */
  function Lines(pieces: seq<string>): string
    requires pieces != []
  {
    if |pieces| == 1 then pieces[0] else pieces[0] + "\n" + Lines(pieces[1..])
  }

  lemma {:induction false} HeadingsInverse(s: string)
    ensures Lines(SplitHeadings(s)) == s
    ensures forall i :: 1 <= i < |SplitHeadings(s)| ==> Heading(Lines(SplitHeadings(s)[i..]))
  {
    if s != "" {
      HeadingsInverse(s[1..]);
      var rest := SplitHeadings(s[1..]);
      var ps := SplitHeadings(s);
      if s[0] == '\n' && Heading(s[1..]) {
        assert ps[1..] == rest && "" + "\n" + s[1..] == s;
        assert forall i :: 1 <= i < |rest| ==> ps[i + 1..] == rest[i..];
        forall i | 1 <= i < |ps| ensures Heading(Lines(ps[i..])) {
          if i > 1 { assert ps[i..] == rest[i - 1..]; }
        }
      } else {
        assert ps[1..] == rest[1..];
        if |rest| > 1 {
          assert [s[0]] + rest[0] + "\n" + Lines(rest[1..]) == [s[0]] + (rest[0] + "\n" + Lines(rest[1..]));
        }
        forall i | 1 <= i < |ps| ensures Heading(Lines(ps[i..])) { assert ps[i..] == rest[i..]; }
      }
    }
  }

  /** One of the pieces but the last ends at position i of the text. */
  predicate CutAt(pieces: seq<string>, i: int) {
    |pieces| > 1 && (i == |pieces[0]| || (i > |pieces[0]| && CutAt(pieces[1..], i - |pieces[0]| - 1)))
  }

  /** A heading is one to three number signs and a blank. */
  predicate HeadingAt(s: string, i: int) {
    0 <= i <= |s| && ("# " <= s[i..] || "## " <= s[i..] || "### " <= s[i..])
  }

  /** Markdown is cut at exactly the newlines that stand before a heading. */
  lemma {:induction false} HeadingsAreCut(s: string, i: int)
    requires 0 <= i < |s|
    ensures CutAt(SplitHeadings(s), i) <==> s[i] == '\n' && HeadingAt(s, i + 1)
  {
    var rest := SplitHeadings(s[1..]);
    var ps := SplitHeadings(s);
    assert s[i + 1..] == s[1..][i..];
    if s[0] == '\n' && Heading(s[1..]) {
      assert ps[1..] == rest;
      if i > 0 { HeadingsAreCut(s[1..], i - 1); }
    } else {
      assert ps[1..] == rest[1..];
      if i > 0 { HeadingsAreCut(s[1..], i - 1); }
    }
  }

  predicate HasBlankLine(s: string) {
    exists i :: 0 <= i < |s| - 1 && s[i] == '\n' && s[i + 1] == '\n'
  }

  // ---- Stripping ------------------------------------------------------------

  function StripLeft(space: char -> bool, s: string): string {
    if s != "" && space(s[0]) then StripLeft(space, s[1..]) else s
  }

  function StripRight(space: char -> bool, s: string): string {
    if s != "" && space(s[|s|-1]) then StripRight(space, s[..|s|-1]) else s
  }

  function Strip(space: char -> bool, s: string): string {
    StripRight(space, StripLeft(space, s))
  }

  /** Not empty, and beginning and ending with something other than white space. */
  predicate Solid(space: char -> bool, s: string) {
    s != "" && !space(s[0]) && !space(s[|s|-1])
  }

  lemma {:induction false} StripSolid(space: char -> bool, s: string)
    ensures Strip(space, s) == "" || Solid(space, Strip(space, s))
    ensures Solid(space, s) ==> Strip(space, s) == s
  {
    var t := StripLeft(space, s);
    StripLeftSolid(space, s);
    StripRightSolid(space, t);
  }

  lemma {:induction false} StripLeftSolid(space: char -> bool, s: string)
    ensures var t := StripLeft(space, s); t == "" || !space(t[0])
  {
    if s != "" && space(s[0]) { StripLeftSolid(space, s[1..]); }
  }

  lemma {:induction false} StripRightSolid(space: char -> bool, s: string)
    requires s == "" || !space(s[0])
    ensures var t := StripRight(space, s); t == "" || Solid(space, t)
  {
    if s != "" && space(s[|s|-1]) { StripRightSolid(space, s[..|s|-1]); }
  }

  /** The non-empty sections, stripped. */
  function Sections(space: char -> bool, pieces: seq<string>): seq<string> {
    if pieces == [] then []
    else
      var s := Strip(space, pieces[|pieces|-1]);
      Sections(space, pieces[..|pieces|-1]) + (if s != "" then [s] else [])
  }

  ghost predicate AllSolid(space: char -> bool, ss: seq<string>) {
    forall i :: 0 <= i < |ss| ==> Solid(space, ss[i])
  }

  lemma {:induction false} SectionsSolid(space: char -> bool, pieces: seq<string>)
    ensures AllSolid(space, Sections(space, pieces))
  {
    if pieces != [] {
      SectionsSolid(space, pieces[..|pieces|-1]);
      StripSolid(space, pieces[|pieces|-1]);
    }
  }

  // ---- Groups of sections ---------------------------------------------------

  /** The running chunk: every section followed by a blank line. */
  function Blocks(g: seq<string>): string {
    if g == [] then "" else Blocks(g[..|g|-1]) + g[|g|-1] + "\n\n"
  }

  /** The sections with a blank line between them. */
  function Join(g: seq<string>): string {
    if g == [] then ""
    else if |g| == 1 then g[0]
    else Join(g[..|g|-1]) + "\n\n" + g[|g|-1]
  }

  lemma {:induction false} BlocksJoin(g: seq<string>)
    requires g != []
    ensures Blocks(g) == Join(g) + "\n\n"
  {
    if |g| > 1 { BlocksJoin(g[..|g|-1]); } else { assert g[..0] == [] && Blocks(g[..0]) == ""; }
  }

  lemma {:induction false} JoinSolid(space: char -> bool, g: seq<string>)
    requires g != [] && AllSolid(space, g)
    ensures Solid(space, Join(g)) && Join(g)[0] == g[0][0] && |Join(g)| >= |g[0]| && Join(g)[..|g[0]|] == g[0]
  {
    if |g| > 1 {
      JoinSolid(space, g[..|g|-1]);
      var a := Join(g[..|g|-1]);
      assert Join(g)[..|g[0]|] == a[..|g[0]|];
    }
  }

  lemma StripTrailing(space: char -> bool, s: string)
    requires Solid(space, s) && space('\n')
    ensures Strip(space, s + "\n\n") == s
  {
    var t := s + "\n\n";
    assert StripLeft(space, t) == t;
    var u := s + "\n";
    assert t[..|t|-1] == u && u[..|u|-1] == s;
    assert StripRight(space, t) == StripRight(space, u) == StripRight(space, s) == s;
  }

  lemma StripBlocks(space: char -> bool, g: seq<string>)
    requires g != [] && AllSolid(space, g) && space('\n')
    ensures Strip(space, Blocks(g)) == Join(g) && Join(g) != "" && |Blocks(g)| == |Join(g)| + 2
  {
    BlocksJoin(g);
    JoinSolid(space, g);
    StripTrailing(space, Join(g));
  }

  function Flat(gs: seq<seq<string>>): seq<string> {
    if gs == [] then [] else Flat(gs[..|gs|-1]) + gs[|gs|-1]
  }

  /** A chunk's share: several sections only when they fit the maximum together. */
  predicate Bounded(g: seq<string>) {
    g != [] && (|g| == 1 || |Join(g)| <= CHUNK_MAX)
  }

  /** The text of the k-th chunk: its sections, and in the last one the short remainder. */
  function TextOf(groups: seq<seq<string>>, rest: seq<string>, k: nat): string
    requires k < |groups|
  {
    Join(groups[k]) + (if k == |groups| - 1 && rest != [] then "\n" + Join(rest) else "")
  }

  function MakeChunk(space: char -> bool, text: string, stem: string, file: string, prefix: string, number: nat): Chunk {
    Chunk(RecordId(prefix, Sanitize(stem), number), Strip(space, text), prefix + "_" + stem, file, number)
  }

  /** Numbered from zero, with the matching ids. */
  ghost predicate Labelled(chunks: seq<Chunk>, stem: string, file: string, prefix: string) {
    forall k :: 0 <= k < |chunks| ==>
      && chunks[k].number == k && chunks[k].id == RecordId(prefix, Sanitize(stem), k)
      && chunks[k].source == prefix + "_" + stem && chunks[k].file == file
  }

  // ---- The loop -------------------------------------------------------------

  /** The chunks hold the sections in order, none lost and none repeated: chunk by chunk those
      of `groups`, then in the last chunk those of `rest`. */
  method ChunkText(space: char -> bool, text: string, markdown: bool, stem: string, file: string, prefix: string)
    returns (chunks: seq<Chunk>, ghost groups: seq<seq<string>>, ghost rest: seq<string>)
    requires space('\n')
    ensures Holding(Sections(space, SplitText(markdown, text)), chunks, groups, rest, stem, file, prefix)
    ensures Greedy(groups, rest)
    ensures Ink(space, Texts(chunks)) == Ink(space, text)
  {
    hide Sections, Packing, Blocks, MakeChunk, Strip, Flat, Labelled, TextOf, SplitText, Filling, Greedy, Size;
    var pieces := SplitText(markdown, text);
    var sections := Sections(space, pieces);
    SectionsSolid(space, pieces);
    chunks := [];
    groups, rest := [], [];
    var current := "";
    ghost var open: seq<string> := [];
    NothingPacked(space, stem, file, prefix);
    NothingFilled();
    assert sections[..0] == [];
    for i := 0 to |sections|
      invariant Packing(space, sections[..i], chunks, groups, open, current, stem, file, prefix)
      invariant |current| < CHUNK_TARGET && Filling(groups, open) && |current| == Size(open)
    {
      var section := sections[i];
      assert sections[..i + 1] == sections[..i] + [section];
      OpenOrNot(space, sections[..i], chunks, groups, open, current, stem, file, prefix);
      Takes(groups, open, section);
      if |current| + |section| > CHUNK_MAX && current != "" {
        Flushed(space, sections[..i], chunks, groups, open, current, stem, file, prefix);
        chunks := chunks + [MakeChunk(space, current, stem, file, prefix, |chunks|)];
        groups := groups + [open];
        current := "";
        open := [];
      }
      Extended(space, sections[..i], chunks, groups, open, current, stem, file, prefix, section);
      open := open + [section];
      current := current + section + "\n\n";
      Fills(groups, open);
      if |current| >= CHUNK_TARGET {
        Flushed(space, sections[..i + 1], chunks, groups, open, current, stem, file, prefix);
        chunks := chunks + [MakeChunk(space, current, stem, file, prefix, |chunks|)];
        groups := groups + [open];
        current := "";
        open := [];
      }
    }
    assert sections[..|sections|] == sections;
    OpenOrNot(space, sections, chunks, groups, open, current, stem, file, prefix);
    Ends(groups, open);
    if Strip(space, current) != "" {
      if |current| >= CHUNK_MIN || chunks == [] {
        Flushed(space, sections, chunks, groups, open, current, stem, file, prefix);
        chunks := chunks + [MakeChunk(space, current, stem, file, prefix, |chunks|)];
        groups := groups + [open];
        current := "";
        open := [];
        AllPacked(space, sections, chunks, groups, stem, file, prefix);
      } else {
        var last := |chunks| - 1;
        RestPacked(space, sections, chunks, groups, open, current, stem, file, prefix);
        chunks := chunks[last := chunks[last].(text := chunks[last].text + "\n" + Strip(space, current))];
        rest := open;
      }
    } else {
      AllPacked(space, sections, chunks, groups, stem, file, prefix);
    }
    ChunkingConservesText(space, text, markdown, chunks, groups, rest, stem, file, prefix);
  }

  // ---- Where the chunks end -------------------------------------------------

  /** The length of the running chunk: every section and its blank line. */
  function Size(g: seq<string>): nat {
    if g == [] then 0 else Size(g[..|g|-1]) + |g[|g|-1]| + 2
  }

  /** No chunk goes on beyond 1000 characters, nor takes a section that brings it beyond 1500. */
  ghost predicate Grown(g: seq<string>) {
    g != [] && forall m :: 0 < m < |g| ==> Size(g[..m]) < 1000 && Size(g[..m]) + |g[m]| <= 1500
  }

  /** And none ends earlier. */
  predicate Closed(g: seq<string>, next: string) {
    Size(g) >= 1000 || Size(g) + |next| > 1500
  }

  ghost predicate Filling(groups: seq<seq<string>>, open: seq<string>) {
    && (forall k :: 0 <= k < |groups| ==> Grown(groups[k]))
    && (forall k :: 0 < k < |groups| ==> Closed(groups[k - 1], groups[k][0]))
    && (open != [] ==> Grown(open) && (groups != [] ==> Closed(groups[|groups|-1], open[0])))
    && (open == [] && groups != [] ==> Size(groups[|groups|-1]) >= 1000)
  }

  /** Where the chunks end is settled by the sections: each takes sections up to 1000 characters
      unless the next would bring it beyond 1500, and no fewer; the last sections make a chunk of
      their own if they come to 500 characters or are all there is, and otherwise join the last. */
  ghost predicate Greedy(groups: seq<seq<string>>, rest: seq<string>) {
    && (forall k :: 0 <= k < |groups| ==> Grown(groups[k]))
    && (forall k :: 0 < k < |groups| ==> Closed(groups[k - 1], groups[k][0]))
    && (rest != [] ==> groups != [] && Grown(rest) && Size(rest) < 500 && Closed(groups[|groups|-1], rest[0]))
    && (rest == [] && |groups| > 1 ==> Size(groups[|groups|-1]) >= 500)
  }

  lemma NothingFilled()
    ensures Filling([], []) && Size([]) == 0
  {
  }

  lemma SizeMore(open: seq<string>, section: string)
    ensures Size(open + [section]) == Size(open) + |section| + 2
  {
    assert (open + [section])[..|open|] == open;
  }

  lemma GrownMore(open: seq<string>, section: string)
    requires open == [] || (Grown(open) && Size(open) < 1000 && Size(open) + |section| <= 1500)
    ensures Grown(open + [section]) && (open != [] ==> (open + [section])[0] == open[0])
  {
    hide Size;
    var g := open + [section];
    assert forall m :: 0 < m <= |open| ==> g[..m] == open[..m];
    assert open[..|open|] == open;
  }

  /** One section more: into the running chunk, or into a new one after a flush. */
  lemma Takes(groups: seq<seq<string>>, open: seq<string>, section: string)
    requires Filling(groups, open) && Size(open) < 1000
    ensures Size(open + [section]) == Size(open) + |section| + 2 && Size([section]) == |section| + 2
    ensures Size([]) == 0
    ensures open == [] || Size(open) + |section| <= 1500 ==> Filling(groups, open + [section])
    ensures open != [] && Size(open) + |section| > 1500 ==> Filling(groups + [open], [section])
    ensures [] + [section] == [section]
  {
    hide Size, Grown;
    SizeMore(open, section);
    SizeMore([], section);
    NothingFilled();
    assert [] + [section] == [section];
    GrownMore([], section);
    if open == [] || Size(open) + |section| <= 1500 { GrownMore(open, section); }
  }

  /** A running chunk of 1000 characters is flushed. */
  lemma Fills(groups: seq<seq<string>>, open: seq<string>)
    requires Filling(groups, open) && open != []
    ensures Size(open) >= 1000 ==> Filling(groups + [open], [])
    ensures Size([]) == 0
  {
    hide Size;
    NothingFilled();
  }

  lemma Ends(groups: seq<seq<string>>, open: seq<string>)
    requires Filling(groups, open)
    ensures open == [] ==> Greedy(groups, [])
    ensures open != [] && (Size(open) >= 500 || groups == []) ==> Greedy(groups + [open], [])
    ensures open != [] && Size(open) < 500 && groups != [] ==> Greedy(groups, open)
  {
    hide Size;
  }

  // ---- What the loop keeps --------------------------------------------------

  /** The sections so far: those in finished chunks, then those of the running chunk. */
  ghost predicate Packing(space: char -> bool, done: seq<string>, chunks: seq<Chunk>, groups: seq<seq<string>>,
                          open: seq<string>, current: string, stem: string, file: string, prefix: string) {
    && Flat(groups) + open == done
    && current == Blocks(open)
    && AllSolid(space, open) && (open != [] ==> Bounded(open))
    && |chunks| == |groups| && Labelled(chunks, stem, file, prefix)
    && (forall k :: 0 <= k < |groups| ==> chunks[k].text == Join(groups[k]) && Bounded(groups[k]))
  }

  lemma NothingPacked(space: char -> bool, stem: string, file: string, prefix: string)
    ensures Packing(space, [], [], [], [], "", stem, file, prefix)
  {
  }

  lemma OpenOrNot(space: char -> bool, done: seq<string>, chunks: seq<Chunk>, groups: seq<seq<string>>,
                  open: seq<string>, current: string, stem: string, file: string, prefix: string)
    requires space('\n') && Packing(space, done, chunks, groups, open, current, stem, file, prefix)
    ensures |chunks| == |groups|
    ensures current == "" <==> open == []
    ensures Strip(space, current) == "" <==> open == []
    ensures open != [] ==> Strip(space, current) == Join(open) && |current| == |Join(open)| + 2
  {
    hide RecordId, Sanitize, Labelled;
    if open != [] { StripBlocks(space, open); }
  }

  lemma Flushed(space: char -> bool, done: seq<string>, chunks: seq<Chunk>, groups: seq<seq<string>>,
                open: seq<string>, current: string, stem: string, file: string, prefix: string)
    requires space('\n') && open != [] && Packing(space, done, chunks, groups, open, current, stem, file, prefix)
    ensures Packing(space, done, chunks + [MakeChunk(space, current, stem, file, prefix, |chunks|)],
                    groups + [open], [], "", stem, file, prefix)
  {
    hide RecordId, Sanitize, Blocks, Strip, Join;
    StripBlocks(space, open);
    FlatMore(groups, open);
    NoBlocks();
    assert Flat(groups + [open]) + [] == done;
  }

  lemma NoBlocks()
    ensures Blocks([]) == ""
  {
  }

  lemma Extended(space: char -> bool, done: seq<string>, chunks: seq<Chunk>, groups: seq<seq<string>>,
                 open: seq<string>, current: string, stem: string, file: string, prefix: string, section: string)
    requires Packing(space, done, chunks, groups, open, current, stem, file, prefix) && Solid(space, section)
    requires open != [] ==> |current| + |section| <= CHUNK_MAX
    ensures Packing(space, done + [section], chunks, groups, open + [section], current + section + "\n\n",
                    stem, file, prefix)
  {
    hide RecordId, Sanitize, Join, Labelled, Blocks, Flat;
    Extend(space, open, section);
    NoBlocks();
    assert Flat(groups) + (open + [section]) == done + [section];
  }

  /** What the chunks owe the sections when everything is packed. */
  ghost predicate Holding(sections: seq<string>, chunks: seq<Chunk>, groups: seq<seq<string>>, rest: seq<string>,
                          stem: string, file: string, prefix: string) {
    && Flat(groups) + rest == sections
    && |chunks| == |groups| && Labelled(chunks, stem, file, prefix)
    && (forall k :: 0 <= k < |chunks| ==> chunks[k].text == TextOf(groups, rest, k))
    && (forall k :: 0 <= k < |groups| ==> Bounded(groups[k]))
    && (rest != [] ==> groups != [] && |Join(rest)| + 2 < CHUNK_MIN)
    && (chunks == [] <==> sections == [])
  }

  lemma AllPacked(space: char -> bool, sections: seq<string>, chunks: seq<Chunk>, groups: seq<seq<string>>,
                  stem: string, file: string, prefix: string)
    requires Packing(space, sections, chunks, groups, [], "", stem, file, prefix)
    ensures Holding(sections, chunks, groups, [], stem, file, prefix)
  {
    hide RecordId, Sanitize, Labelled, Blocks, Join;
    if groups != [] { FlatNotEmpty(groups); }
  }

  lemma RestPacked(space: char -> bool, sections: seq<string>, chunks: seq<Chunk>, groups: seq<seq<string>>,
                   open: seq<string>, current: string, stem: string, file: string, prefix: string)
    requires space('\n') && Packing(space, sections, chunks, groups, open, current, stem, file, prefix)
    requires chunks != [] && open != [] && |current| < CHUNK_MIN
    ensures var last := |chunks| - 1;
            var more := chunks[last := chunks[last].(text := chunks[last].text + "\n" + Strip(space, current))];
            Holding(sections, more, groups, open, stem, file, prefix)
  {
    hide RecordId, Sanitize, Blocks, Strip, Flat, Join;
    StripBlocks(space, open);
    var last := |chunks| - 1;
    assert Join(groups[last]) + "\n" + Join(open) == Join(groups[last]) + ("\n" + Join(open));
    assert Flat(groups) + open != [];
  }

  lemma FlatMore(gs: seq<seq<string>>, g: seq<string>)
    ensures Flat(gs + [g]) == Flat(gs) + g
  {
    assert (gs + [g])[..|gs|] == gs;
  }

  lemma FlatNotEmpty(gs: seq<seq<string>>)
    requires gs != [] && Bounded(gs[|gs|-1])
    ensures Flat(gs) != []
  {
  }

  lemma Extend(space: char -> bool, open: seq<string>, section: string)
    requires AllSolid(space, open) && Solid(space, section)
    requires open != [] ==> |Blocks(open)| + |section| <= CHUNK_MAX
    ensures Blocks(open + [section]) == Blocks(open) + section + "\n\n"
    ensures AllSolid(space, open + [section]) && Bounded(open + [section])
  {
    assert (open + [section])[..|open|] == open;
    if open != [] { BlocksJoin(open); }
  }

  // ---- The bound and the conservation law -----------------------------------

  /** A chunk longer than 1998 characters starts with one section longer than 1500. */
  lemma LongChunkStartsWithLongSection(sections: seq<string>, chunks: seq<Chunk>, groups: seq<seq<string>>,
                                       rest: seq<string>, stem: string, file: string, prefix: string, k: nat)
    requires Holding(sections, chunks, groups, rest, stem, file, prefix) && k < |chunks|
    requires |chunks[k].text| > 1998
    ensures |groups[k]| == 1 && |groups[k][0]| > CHUNK_MAX && groups[k][0] <= chunks[k].text
    ensures groups[k][0] in sections
  {
    hide RecordId, Sanitize, Labelled;
    assert Bounded(groups[k]);
    assert chunks[k].text == TextOf(groups, rest, k);
    FlatHolds(groups, k);
  }

  lemma {:induction false} FlatHolds(gs: seq<seq<string>>, k: nat)
    requires k < |gs|
    ensures forall x :: x in gs[k] ==> x in Flat(gs)
  {
    if k < |gs| - 1 { FlatHolds(gs[..|gs|-1], k); }
  }

  /** The characters of a text that are not white space. */
  function Ink(space: char -> bool, s: string): string {
    if s == "" then "" else Ink(space, s[..|s|-1]) + (if space(s[|s|-1]) then "" else [s[|s|-1]])
  }

  lemma {:induction false} InkJoin(space: char -> bool, a: string, b: string)
    ensures Ink(space, a + b) == Ink(space, a) + Ink(space, b)
  {
    if b == "" {
      assert a + b == a;
    } else {
      InkJoin(space, a, b[..|b|-1]);
      assert (a + b)[..|a + b|-1] == a + b[..|b|-1];
    }
  }

  lemma {:induction false} InkStrip(space: char -> bool, s: string)
    ensures Ink(space, Strip(space, s)) == Ink(space, s)
  {
    InkStripLeft(space, s);
    InkStripRight(space, StripLeft(space, s));
  }

  lemma {:induction false} InkStripLeft(space: char -> bool, s: string)
    ensures Ink(space, StripLeft(space, s)) == Ink(space, s)
  {
    if s != "" && space(s[0]) {
      InkStripLeft(space, s[1..]);
      InkJoin(space, s[..1], s[1..]);
      assert s == s[..1] + s[1..];
      assert Ink(space, s[..1][..0]) == "";
    }
  }

  lemma {:induction false} InkStripRight(space: char -> bool, s: string)
    ensures Ink(space, StripRight(space, s)) == Ink(space, s)
  {
    if s != "" && space(s[|s|-1]) { InkStripRight(space, s[..|s|-1]); }
  }

  function Concat(ss: seq<string>): string {
    if ss == [] then "" else Concat(ss[..|ss|-1]) + ss[|ss|-1]
  }

  lemma {:induction false} ConcatJoin(a: seq<string>, b: seq<string>)
    ensures Concat(a + b) == Concat(a) + Concat(b)
  {
    if b == [] {
      assert a + b == a;
    } else {
      ConcatJoin(a, b[..|b|-1]);
      assert (a + b)[..|a + b|-1] == a + b[..|b|-1];
      assert Concat(a) + (Concat(b[..|b|-1]) + b[|b|-1]) == Concat(a) + Concat(b[..|b|-1]) + b[|b|-1];
    }
  }

  lemma {:induction false} InkSections(space: char -> bool, pieces: seq<string>)
    ensures Ink(space, Concat(Sections(space, pieces))) == Ink(space, Concat(pieces))
  {
    hide Strip, Ink;
    if pieces != [] {
      var n := |pieces| - 1;
      var s := Strip(space, pieces[n]);
      var a := Sections(space, pieces[..n]);
      InkSections(space, pieces[..n]);
      InkStrip(space, pieces[n]);
      InkJoin(space, Concat(pieces[..n]), pieces[n]);
      InkJoin(space, Concat(a), s);
      if s == "" {
        assert a + [] == a && Concat(a) + s == Concat(a);
      } else {
        assert (a + [s])[..|a|] == a;
      }
    }
  }

  lemma {:induction false} InkGroup(space: char -> bool, g: seq<string>)
    requires space('\n')
    ensures Ink(space, Join(g)) == Ink(space, Concat(g))
  {
    if |g| == 1 {
      assert g[..0] == [] && Concat(g[..0]) == "";
      assert Concat(g) == Concat(g[..0]) + g[0] == g[0] == Join(g);
    } else if |g| > 1 {
      var n := |g| - 1;
      InkGroup(space, g[..n]);
      InkJoin(space, Join(g[..n]) + "\n\n", g[n]);
      InkJoin(space, Join(g[..n]), "\n\n");
      InkBlank(space);
      InkJoin(space, Concat(g[..n]), g[n]);
    }
  }

  lemma InkBlank(space: char -> bool)
    requires space('\n')
    ensures Ink(space, "\n\n") == "" && Ink(space, "\n") == ""
  {
    assert "\n\n"[..1] == "\n" && "\n"[..0] == "";
  }

  /** The texts of all chunks, one after the other. */
  function Texts(chunks: seq<Chunk>): string {
    if chunks == [] then "" else Texts(chunks[..|chunks|-1]) + chunks[|chunks|-1].text
  }

  lemma {:induction false} InkGroups(space: char -> bool, chunks: seq<Chunk>, groups: seq<seq<string>>)
    requires space('\n') && |chunks| == |groups|
    requires forall k :: 0 <= k < |chunks| ==> chunks[k].text == Join(groups[k])
    ensures Ink(space, Texts(chunks)) == Ink(space, Concat(Flat(groups)))
  {
    if groups != [] {
      var n := |groups| - 1;
      InkGroups(space, chunks[..n], groups[..n]);
      InkJoin(space, Texts(chunks[..n]), chunks[n].text);
      InkGroup(space, groups[n]);
      ConcatJoin(Flat(groups[..n]), groups[n]);
      InkJoin(space, Concat(Flat(groups[..n])), Concat(groups[n]));
    }
  }

  /** Chunking conserves the text: apart from white space, the chunks read one after the
      other exactly as the document does. */
  lemma ChunkingConservesText(space: char -> bool, text: string, markdown: bool, chunks: seq<Chunk>,
                              groups: seq<seq<string>>, rest: seq<string>, stem: string, file: string, prefix: string)
    requires space('\n') && Holding(Sections(space, SplitText(markdown, text)), chunks, groups, rest, stem, file, prefix)
    ensures Ink(space, Texts(chunks)) == Ink(space, text)
  {
    SplitConserves(space, markdown, text);
    PiecesConserved(space, SplitText(markdown, text), chunks, groups, rest, stem, file, prefix);
  }

  /** Splitting takes newlines out and nothing else. */
  lemma SplitConserves(space: char -> bool, markdown: bool, text: string)
    requires space('\n')
    ensures Ink(space, Concat(SplitText(markdown, text))) == Ink(space, text)
  {
    if markdown { HeadingsConserve(space, text); } else { ParagraphsConserve(space, text); }
  }

  lemma {:induction false} InkFirst(space: char -> bool, s: string)
    requires s != ""
    ensures Ink(space, s) == (if space(s[0]) then "" else [s[0]]) + Ink(space, s[1..])
  {
    InkJoin(space, s[..1], s[1..]);
    assert s == s[..1] + s[1..] && Ink(space, s[..1][..0]) == "";
  }

  lemma ConcatFirst(piece: string, rest: seq<string>)
    ensures Concat([piece] + rest) == piece + Concat(rest)
  {
    ConcatJoin([piece], rest);
    assert [piece][..0] == [] && Concat([]) == "";
  }

  /** A character put in front of the first piece. */
  lemma ConcatPrefixed(c: char, rest: seq<string>)
    requires rest != []
    ensures Concat([[c] + rest[0]] + rest[1..]) == [c] + Concat(rest)
  {
    hide Concat;
    ConcatFirst([c] + rest[0], rest[1..]);
    ConcatFirst(rest[0], rest[1..]);
    assert rest == [rest[0]] + rest[1..];
    assert [c] + rest[0] + Concat(rest[1..]) == [c] + (rest[0] + Concat(rest[1..]));
  }

  lemma InkPrefixed(space: char -> bool, c: char, t: string)
    ensures Ink(space, [c] + t) == (if space(c) then "" else [c]) + Ink(space, t)
  {
    InkFirst(space, [c] + t);
    assert ([c] + t)[1..] == t;
  }

  lemma {:induction false} HeadingsConserve(space: char -> bool, s: string)
    requires space('\n')
    ensures Ink(space, Concat(SplitHeadings(s))) == Ink(space, s)
  {
    hide Ink, Concat, Heading;
    if s == "" {
      OnePiece("");
    } else {
      HeadingsConserve(space, s[1..]);
      InkFirst(space, s);
      var rest := SplitHeadings(s[1..]);
      if s[0] == '\n' && Heading(s[1..]) {
        ConcatFirst("", rest);
        assert "" + Concat(rest) == Concat(rest);
      } else {
        ConcatPrefixed(s[0], rest);
        InkPrefixed(space, s[0], Concat(rest));
      }
    }
  }

  lemma OnePiece(s: string)
    ensures Concat([s]) == s
  {
    assert [s][..0] == [] && Concat([]) == "";
  }

  lemma {:induction false} InkDropped(space: char -> bool, s: string)
    requires space('\n')
    ensures Ink(space, DropNewlines(s)) == Ink(space, s)
  {
    hide Ink;
    if s != "" && s[0] == '\n' {
      InkDropped(space, s[1..]);
      InkFirst(space, s);
    }
  }

  lemma {:induction false} ParagraphsConserve(space: char -> bool, s: string)
    requires space('\n')
    ensures Ink(space, Concat(SplitParagraphs(s))) == Ink(space, s)
    decreases |s|
  {
    hide Ink, Concat;
    if s == "" {
      OnePiece("");
    } else if "\n\n" <= s {
      assert s[0] == '\n' && s[1] == '\n' && s[1..][1..] == s[2..];
      var rest := SplitParagraphs(DropNewlines(s[2..]));
      ParagraphsConserve(space, DropNewlines(s[2..]));
      InkDropped(space, s[2..]);
      InkFirst(space, s);
      InkFirst(space, s[1..]);
      ConcatFirst("", rest);
      assert "" + Concat(rest) == Concat(rest);
    } else {
      var rest := SplitParagraphs(s[1..]);
      ParagraphsConserve(space, s[1..]);
      InkFirst(space, s);
      ConcatPrefixed(s[0], rest);
      InkPrefixed(space, s[0], Concat(rest));
    }
  }

  /** No paragraph has a blank line in it, and the text begins with the first of them. */
  lemma {:induction false} ParagraphsAreWhole(s: string)
    ensures forall i :: 0 <= i < |SplitParagraphs(s)| ==> !HasBlankLine(SplitParagraphs(s)[i])
    ensures SplitParagraphs(s)[0] <= s
    decreases |s|
  {
    if s != "" {
      var ps := SplitParagraphs(s);
      if "\n\n" <= s {
        ParagraphsAreWhole(DropNewlines(s[2..]));
        var rest := SplitParagraphs(DropNewlines(s[2..]));
        forall i | 0 <= i < |ps| ensures !HasBlankLine(ps[i]) { if i > 0 { assert ps[i] == rest[i - 1]; } }
      } else {
        ParagraphsAreWhole(s[1..]);
        var rest := SplitParagraphs(s[1..]);
        forall i | 0 <= i < |ps| ensures !HasBlankLine(ps[i]) {
          if i > 0 { assert ps[i] == rest[i]; } else { Prefixed(s, rest[0]); }
        }
      }
    }
  }

  function Newlines(n: nat): string {
    if n == 0 then "" else "\n" + Newlines(n - 1)
  }

  /** The pieces with their runs of newlines put back between them. */
  function Woven(pieces: seq<string>, runs: seq<nat>): string
    requires |pieces| == |runs| + 1
  {
    if runs == [] then pieces[0] else pieces[0] + Newlines(runs[0]) + Woven(pieces[1..], runs[1..])
  }

  lemma {:induction false} DroppedRun(s: string) returns (n: nat)
    ensures s == Newlines(n) + DropNewlines(s)
  {
    n := 0;
    if s != "" && s[0] == '\n' {
      n := DroppedRun(s[1..]);
      n := n + 1;
      assert s == "\n" + s[1..];
      assert "\n" + (Newlines(n - 1) + DropNewlines(s)) == ("\n" + Newlines(n - 1)) + DropNewlines(s);
    }
  }

  /** Putting the runs back gives the text, each is of two newlines or more, no piece but the last
      ends with a newline, and none but the first begins with one. */
  ghost predicate Cuts(ps: seq<string>, runs: seq<nat>, s: string) {
    && |ps| == |runs| + 1 && Woven(ps, runs) == s
    && (forall i :: 0 <= i < |runs| ==> runs[i] >= 2)
    && (forall i :: 0 <= i < |runs| ==> !EndsWithNewline(ps[i]))
    && (forall i :: 0 < i <= |runs| ==> !BeginsWithNewline(ps[i]))
  }

  lemma CutRun(s: string, n: nat, t: string, rest: seq<string>, more: seq<nat>)
    requires "\n\n" <= s && s[2..] == Newlines(n) + t
    requires Cuts(rest, more, t) && !BeginsWithNewline(t) && rest[0] <= t
    ensures Cuts([""] + rest, [n + 2] + more, s)
  {
    hide Newlines;
    var ps, runs := [""] + rest, [n + 2] + more;
    assert ps[1..] == rest && runs[1..] == more;
    TwoMore(s, n, t);
    assert Woven(ps, runs) == "" + Newlines(n + 2) + t;
  }

  lemma CutChar(s: string, rest: seq<string>, runs: seq<nat>)
    requires s != "" && !("\n\n" <= s) && Cuts(rest, runs, s[1..])
    ensures Cuts([[s[0]] + rest[0]] + rest[1..], runs, s)
  {
    hide Newlines, Woven;
    WovenPrefixed(s[0], rest, runs);
    if runs != [] && rest[0] == "" { RunFollows(s[1..], rest, runs); }
  }

  /** Any other text is cut at whole runs of two newlines or more and nowhere else. */
  lemma {:induction false} ParagraphsAreCut(s: string) returns (runs: seq<nat>)
    ensures Cuts(SplitParagraphs(s), runs, s)
    decreases |s|
  {
    hide Cuts, Newlines;
    if s == "" {
      runs := [];
      OneCut();
    } else if "\n\n" <= s {
      var t := DropNewlines(s[2..]);
      var more := ParagraphsAreCut(t);
      var n := DroppedRun(s[2..]);
      ParagraphsAreWhole(t);
      CutRun(s, n, t, SplitParagraphs(t), more);
      runs := [n + 2] + more;
    } else {
      runs := ParagraphsAreCut(s[1..]);
      CutChar(s, SplitParagraphs(s[1..]), runs);
    }
  }

  /** So a document is cut before headings if it is markdown, and at blank lines otherwise. */
  lemma TextIsCut(text: string) returns (runs: seq<nat>)
    ensures forall i :: 0 <= i < |text| ==>
              (CutAt(SplitText(true, text), i) <==> text[i] == '\n' && HeadingAt(text, i + 1))
    ensures Cuts(SplitText(false, text), runs, text)
  {
    hide CutAt, HeadingAt, Cuts;
    forall i | 0 <= i < |text|
      ensures CutAt(SplitText(true, text), i) <==> text[i] == '\n' && HeadingAt(text, i + 1)
    {
      HeadingsAreCut(text, i);
    }
    runs := ParagraphsAreCut(text);
  }

  lemma OneCut()
    ensures Cuts([""], [], "")
  {
  }

  lemma TwoMore(s: string, n: nat, t: string)
    requires "\n\n" <= s && s[2..] == Newlines(n) + t
    ensures s == Newlines(n + 2) + t
  {
    assert s == "\n\n" + s[2..];
    assert Newlines(n + 2) == "\n" + ("\n" + Newlines(n));
  }

  predicate EndsWithNewline(s: string) {
    s != "" && s[|s|-1] == '\n'
  }

  predicate BeginsWithNewline(s: string) {
    s != "" && s[0] == '\n'
  }

  lemma WovenPrefixed(c: char, rest: seq<string>, runs: seq<nat>)
    requires |rest| == |runs| + 1
    ensures Woven([[c] + rest[0]] + rest[1..], runs) == [c] + Woven(rest, runs)
  {
    var ps := [[c] + rest[0]] + rest[1..];
    assert ps[1..] == rest[1..];
    if runs != [] {
      var w := Newlines(runs[0]) + Woven(rest[1..], runs[1..]);
      assert [c] + rest[0] + Newlines(runs[0]) + Woven(rest[1..], runs[1..]) == [c] + (rest[0] + w);
      assert rest[0] + Newlines(runs[0]) + Woven(rest[1..], runs[1..]) == rest[0] + w;
    }
  }

  /** A text whose first piece is empty begins with its run of newlines. */
  lemma RunFollows(s: string, pieces: seq<string>, runs: seq<nat>)
    requires |pieces| == |runs| + 1 && runs != [] && pieces[0] == "" && runs[0] >= 2 && Woven(pieces, runs) == s
    ensures s != "" && s[0] == '\n'
  {
    assert Newlines(runs[0]) == "\n" + Newlines(runs[0] - 1);
  }

  lemma Prefixed(s: string, piece: string)
    requires s != "" && !("\n\n" <= s) && piece <= s[1..] && !HasBlankLine(piece)
    ensures !HasBlankLine([s[0]] + piece)
  {
    var t := [s[0]] + piece;
    forall i | 0 <= i < |t| - 1 ensures !(t[i] == '\n' && t[i + 1] == '\n') {
      if i > 0 { assert t[i] == piece[i - 1] && t[i + 1] == piece[i]; } else { assert t[1] == piece[0] == s[1]; }
    }
  }

  lemma PiecesConserved(space: char -> bool, pieces: seq<string>, chunks: seq<Chunk>,
                        groups: seq<seq<string>>, rest: seq<string>, stem: string, file: string, prefix: string)
    requires space('\n') && Holding(Sections(space, pieces), chunks, groups, rest, stem, file, prefix)
    ensures Ink(space, Texts(chunks)) == Ink(space, Concat(pieces))
  {
    hide Ink, Sections, Flat, Concat, RecordId, Sanitize, Labelled;
    InkSections(space, pieces);
    ConcatJoin(Flat(groups), rest);
    InkJoin(space, Concat(Flat(groups)), Concat(rest));
    if rest == [] {
      assert Flat(groups) + rest == Flat(groups);
      InkGroups(space, chunks, groups);
    } else {
      InkWithRest(space, chunks, groups, rest);
    }
  }

  lemma InkWithRest(space: char -> bool, chunks: seq<Chunk>, groups: seq<seq<string>>, rest: seq<string>)
    requires space('\n') && |chunks| == |groups| && groups != [] && rest != []
    requires forall k :: 0 <= k < |chunks| ==> chunks[k].text == TextOf(groups, rest, k)
    ensures Ink(space, Texts(chunks)) == Ink(space, Concat(Flat(groups))) + Ink(space, Concat(rest))
  {
    hide Ink, Concat, Join, Flat;
    var n := |chunks| - 1;
    var plain := chunks[n := chunks[n].(text := Join(groups[n]))];
    assert plain[..n] == chunks[..n];
    InkGroups(space, plain, groups);
    var a, j, r := Texts(chunks[..n]), Join(groups[n]), Join(rest);
    assert Texts(plain) == a + j && Texts(chunks) == a + (j + ("\n" + r));
    InkJoin(space, a, j);
    InkJoin(space, a, j + ("\n" + r));
    InkJoin(space, j, "\n" + r);
    InkJoin(space, "\n", r);
    InkBlank(space);
    InkGroup(space, rest);
  }
}
