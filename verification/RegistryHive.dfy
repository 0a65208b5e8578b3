/** Registry hives exported as trees of keys: the pruned search for a key, the flattening
    into value records, and their agreement. */
module RegistryHive {
  import opened Options

  datatype HiveValue = NotAValue | HiveValue(name: string, kind: string, data: string)

  /** A node of the export. `NotAKey` is an array element that is no object; a key's path may
      be missing. */
  datatype Node =
    | NotAKey
    | Key(name: string, path: Option<string>, values: seq<HiveValue>, subkeys: seq<Node>)

  datatype Record = Record(keyPath: string, name: string, kind: string, data: string)

  // ---- Upper case -----------------------------------------------------------

  /** Python's `upper`, which maps each character on its own, possibly to several. */
  function Upper(up: char -> string, s: string): string {
    if s == "" then "" else up(s[0]) + Upper(up, s[1..])
  }

  /** Backslashes come from backslashes only, and the letters of ROOT are upper case. */
  ghost predicate CaseMap(up: char -> string) {
    && up('\\') == "\\"
    && (forall c :: c != '\\' ==> '\\' !in up(c))
    && up('R') == "R" && up('O') == "O" && up('T') == "T"
  }

  lemma {:induction false} UpperJoin(up: char -> string, a: string, b: string)
    ensures Upper(up, a + b) == Upper(up, a) + Upper(up, b)
  {
    if a == "" {
      assert a + b == b;
    } else {
      UpperJoin(up, a[1..], b);
      assert (a + b)[1..] == a[1..] + b && (a + b)[0] == a[0];
      assert up(a[0]) + (Upper(up, a[1..]) + Upper(up, b)) == up(a[0]) + Upper(up, a[1..]) + Upper(up, b);
    }
  }

  lemma {:induction false} UpperPlain(up: char -> string, s: string)
    requires CaseMap(up) && '\\' !in s
    ensures '\\' !in Upper(up, s)
  {
    if s != "" { UpperPlain(up, s[1..]); }
  }

  lemma UpperStep(up: char -> string, a: string, b: string)
    requires CaseMap(up)
    ensures Upper(up, a + "\\" + b) == Upper(up, a) + "\\" + Upper(up, b)
  {
    UpperJoin(up, a + "\\", b);
    UpperJoin(up, a, "\\");
    assert Upper(up, "\\"[1..]) == "";
  }

  // ---- The pruned search ----------------------------------------------------

  function PathOf(n: Node): string
    requires n.Key?
  {
    if n.path.Some? then n.path.value else ""
  }

  function UpperPath(up: char -> string, n: Node): string
    requires n.Key?
  {
    Upper(up, PathOf(n))
  }

  function Seek(up: char -> string, node: Node, target: string): Option<Node>
    decreases node, 1
  {
    if node.NotAKey? then None
    else if UpperPath(up, node) == target then Some(node)
    else if !(UpperPath(up, node) <= target) then None
    else SeekIn(up, node.subkeys, target)
  }

  function SeekIn(up: char -> string, subs: seq<Node>, target: string): Option<Node>
    decreases subs, 0
  {
    if subs == [] then None
    else if subs[0].NotAKey? then SeekIn(up, subs[1..], target)
    else if UpperPath(up, subs[0]) == target then Some(subs[0])
    else if UpperPath(up, subs[0]) + "\\" <= target then
      var r := Seek(up, subs[0], target);
      if r.Some? then r else SeekIn(up, subs[1..], target)
    else SeekIn(up, subs[1..], target)
  }

  /** `s[4:]`. */
  function Drop4(s: string): string {
    if |s| < 4 then "" else s[4..]
  }

  /** The target with a leading ROOT replaced by the hive's own root path. */
  function Normalized(up: char -> string, root: Node, keyPath: string): string
    requires root.Key?
  {
    if "ROOT" <= Upper(up, keyPath) then UpperPath(up, root) + Upper(up, Drop4(keyPath))
    else Upper(up, keyPath)
  }

  function Navigate(up: char -> string, root: Node, keyPath: string): Option<Node> {
    if root.NotAKey? then None else Seek(up, root, Normalized(up, root, keyPath))
  }

  // ---- The exhaustive search it refines -------------------------------------

  function Preorder(node: Node): seq<Node>
    decreases node, 1
  {
    if node.NotAKey? then [] else [node] + PreorderAll(node.subkeys)
  }

  function PreorderAll(subs: seq<Node>): seq<Node>
    decreases subs, 0
  {
    if subs == [] then [] else Preorder(subs[0]) + PreorderAll(subs[1..])
  }

  /** The first key with the target path. */
  function FirstAt(up: char -> string, nodes: seq<Node>, target: string): Option<Node> {
    if nodes == [] then None
    else if nodes[0].Key? && UpperPath(up, nodes[0]) == target then Some(nodes[0])
    else FirstAt(up, nodes[1..], target)
  }

  /** Every key's path extends its parent's, ignoring case. */
  ghost predicate PathsExtend(up: char -> string, node: Node)
    decreases node, 1
  {
    node.Key? ==> PathsExtendIn(up, UpperPath(up, node), node.subkeys)
  }

  ghost predicate PathsExtendIn(up: char -> string, above: string, subs: seq<Node>)
    decreases subs, 0
  {
    subs != [] ==>
      && (subs[0].Key? ==> above + "\\" <= UpperPath(up, subs[0]))
      && PathsExtend(up, subs[0])
      && PathsExtendIn(up, above, subs[1..])
  }

  lemma PrefixTrans(a: string, b: string, c: string)
    requires a <= b && b <= c
    ensures a <= c
  {
    assert c[..|a|] == b[..|a|];
  }

  /** Everything below a key has a path strictly below the key's. */
  lemma {:induction false} BelowExtends(up: char -> string, above: string, subs: seq<Node>, n: Node)
    requires PathsExtendIn(up, above, subs) && n in PreorderAll(subs)
    ensures n.Key? && above + "\\" <= UpperPath(up, n)
    decreases subs
  {
    var s := subs[0];
    if n in Preorder(s) {
      if n != s {
        var p := UpperPath(up, s);
        BelowExtends(up, p, s.subkeys, n);
        PrefixTrans(above + "\\", p, p + "\\");
        PrefixTrans(above + "\\", p + "\\", UpperPath(up, n));
      }
    } else {
      BelowExtends(up, above, subs[1..], n);
    }
  }

  lemma {:induction false} FirstAtJoin(up: char -> string, a: seq<Node>, b: seq<Node>, target: string)
    ensures FirstAt(up, a + b, target) ==
            if FirstAt(up, a, target).Some? then FirstAt(up, a, target) else FirstAt(up, b, target)
  {
    if a == [] {
      assert a + b == b;
    } else {
      FirstAtJoin(up, a[1..], b, target);
      assert (a + b)[1..] == a[1..] + b;
    }
  }

  lemma {:induction false} FirstAtNone(up: char -> string, nodes: seq<Node>, target: string)
    requires forall n :: n in nodes && n.Key? ==> UpperPath(up, n) != target
    ensures FirstAt(up, nodes, target).None?
  {
    if nodes != [] { FirstAtNone(up, nodes[1..], target); }
  }

  /** Nothing at or below the key can have the target path. */
  lemma OutOfReach(up: char -> string, node: Node, target: string)
    requires node.Key? && PathsExtend(up, node)
    requires UpperPath(up, node) != target && !(UpperPath(up, node) + "\\" <= target)
    ensures FirstAt(up, Preorder(node), target).None?
  {
    forall n | n in Preorder(node) && n.Key? ensures UpperPath(up, n) != target {
      if n != node { BelowExtends(up, UpperPath(up, node), node.subkeys, n); }
    }
    FirstAtNone(up, Preorder(node), target);
  }

  lemma {:induction false} SeekRefines(up: char -> string, node: Node, target: string)
    requires PathsExtend(up, node)
    ensures Seek(up, node, target) == FirstAt(up, Preorder(node), target)
    decreases node, 1
  {
    if node.Key? {
      var p := UpperPath(up, node);
      if p == target {
      } else if !(p <= target) {
        if p + "\\" <= target { PrefixTrans(p, p + "\\", target); }
        OutOfReach(up, node, target);
      } else {
        SeekInRefines(up, p, node.subkeys, target);
        assert Preorder(node)[1..] == PreorderAll(node.subkeys);
      }
    }
  }

  lemma {:induction false} SeekInRefines(up: char -> string, above: string, subs: seq<Node>, target: string)
    requires PathsExtendIn(up, above, subs)
    ensures SeekIn(up, subs, target) == FirstAt(up, PreorderAll(subs), target)
    decreases subs, 0
  {
    if subs != [] {
      var s := subs[0];
      FirstAtJoin(up, Preorder(s), PreorderAll(subs[1..]), target);
      SeekInRefines(up, above, subs[1..], target);
      if s.Key? && UpperPath(up, s) != target {
        if UpperPath(up, s) + "\\" <= target {
          SeekRefines(up, s, target);
        } else {
          OutOfReach(up, s, target);
        }
      }
    }
  }

  /** On every hive whose paths extend their parents', the pruned search returns the first
      key in preorder with the target path, and none only when there is none. */
  lemma NavigateIsFirstInPreorder(up: char -> string, root: Node, keyPath: string)
    requires root.Key? && PathsExtend(up, root)
    ensures Navigate(up, root, keyPath) == FirstAt(up, Preorder(root), Normalized(up, root, keyPath))
    ensures Navigate(up, root, keyPath).None? <==>
            forall n :: n in Preorder(root) && n.Key? ==> UpperPath(up, n) != Normalized(up, root, keyPath)
  {
    var t := Normalized(up, root, keyPath);
    SeekRefines(up, root, t);
    FirstAtSome(up, Preorder(root), t);
  }

  /** What is searched for: a path that begins with ROOT, in any case, is taken below the hive's
      own root path, and any other path as it is. */
  lemma NavigateMeans(up: char -> string, root: Node, keyPath: string)
    requires root.Key? && PathsExtend(up, root)
    ensures !("ROOT" <= Upper(up, keyPath)) ==>
              Navigate(up, root, keyPath) == FirstAt(up, Preorder(root), Upper(up, keyPath))
    ensures "ROOT" <= Upper(up, keyPath) && |keyPath| >= 4 ==>
              Navigate(up, root, keyPath) == FirstAt(up, Preorder(root), Upper(up, PathOf(root)) + Upper(up, keyPath[4..]))
  {
    hide Upper, Seek;
    NavigateIsFirstInPreorder(up, root, keyPath);
  }

  lemma {:induction false} FirstAtSome(up: char -> string, nodes: seq<Node>, target: string)
    ensures FirstAt(up, nodes, target).None? <==>
            forall n :: n in nodes && n.Key? ==> UpperPath(up, n) != target
  {
    if nodes != [] {
      FirstAtSome(up, nodes[1..], target);
      assert nodes == [nodes[0]] + nodes[1..];
    }
  }

  // ---- Flattening -----------------------------------------------------------

  predicate HasBackslash(s: string) {
    '\\' in s
  }

  /** What follows the first backslash: `s.split("\\", 1)[1]`. */
  function AfterFirst(s: string): string
    requires HasBackslash(s)
  {
    if s[0] == '\\' then s[1..] else AfterFirst(s[1..])
  }

  /** The path under which a key's values are recorded, below `current`. */
  function FlatPath(node: Node, current: string): string
    requires node.Key?
  {
    if current == "" && node.name != "" then
      var p := if node.path.Some? then node.path.value else node.name;
      if HasBackslash(p) then AfterFirst(p) else ""
    else if node.name != "" then current + "\\" + node.name
    else current
  }

  function ValueRecords(values: seq<HiveValue>, path: string): seq<Record> {
    if values == [] then []
    else
      var v := values[|values|-1];
      ValueRecords(values[..|values|-1], path) +
      (if v.HiveValue? then [Record(path, v.name, v.kind, v.data)] else [])
  }

  function Flatten(node: Node, current: string): seq<Record>
    decreases node, 1
  {
    if node.NotAKey? then []
    else
      ValueRecords(node.values, FlatPath(node, current)) + FlattenAll(node.subkeys, FlatPath(node, current))
  }

  function FlattenAll(subs: seq<Node>, current: string): seq<Record>
    decreases subs, 0
  {
    if subs == [] then [] else Flatten(subs[0], current) + FlattenAll(subs[1..], current)
  }

  lemma {:induction false} FlattenAllJoin(a: seq<Node>, b: seq<Node>, current: string)
    ensures FlattenAll(a + b, current) == FlattenAll(a, current) + FlattenAll(b, current)
  {
    hide Flatten;
    if a == [] {
      assert a + b == b;
    } else {
      FlattenAllJoin(a[1..], b, current);
      assert (a + b)[1..] == a[1..] + b && (a + b)[0] == a[0];
      var x, y, z := Flatten(a[0], current), FlattenAll(a[1..], current), FlattenAll(b, current);
      assert x + (y + z) == x + y + z;
    }
  }

  /** The accumulator the recursion shares. */
  class Flattener {
    var results: seq<Record>

    constructor ()
      ensures results == []
    {
      results := [];
    }

    method Collect(node: Node, current: string)
      modifies this
      ensures results == old(results) + Flatten(node, current)
      decreases node, 1
    {
      if node.NotAKey? { return; }
      var path := FlatPath(node, current);
      CollectValues(node.values, path);
      CollectAll(node.subkeys, path);
    }

    method CollectValues(values: seq<HiveValue>, path: string)
      modifies this
      ensures results == old(results) + ValueRecords(values, path)
    {
      for i := 0 to |values|
        invariant results == old(results) + ValueRecords(values[..i], path)
      {
        assert values[..i + 1][..i] == values[..i];
        var v := values[i];
        if v.HiveValue? { results := results + [Record(path, v.name, v.kind, v.data)]; }
      }
      assert values[..|values|] == values;
    }

    method CollectAll(subs: seq<Node>, path: string)
      modifies this
      ensures results == old(results) + FlattenAll(subs, path)
      decreases subs, 0
    {
      hide Flatten;
      for i := 0 to |subs|
        invariant results == old(results) + FlattenAll(subs[..i], path)
      {
        assert subs[..i + 1] == subs[..i] + [subs[i]];
        FlattenAllJoin(subs[..i], [subs[i]], path);
        assert FlattenAll([subs[i]], path) == Flatten(subs[i], path);
        Collect(subs[i], path);
      }
      assert subs[..|subs|] == subs;
    }
  }

  // ---- Agreement ------------------------------------------------------------

  /** Names are not empty and have no backslash, a child's path is its parent's, a backslash
      and its name, and siblings differ ignoring case. */
  ghost predicate WellFormed(up: char -> string, node: Node)
    decreases node, 1
  {
    node.Key? ==> node.path.Some? && WellFormedIn(up, node.path.value, node.subkeys)
  }

  ghost predicate WellFormedIn(up: char -> string, above: string, subs: seq<Node>)
    decreases subs, 0
  {
    subs != [] ==>
      && (subs[0].Key? ==>
            && subs[0].name != "" && !HasBackslash(subs[0].name)
            && subs[0].path == Some(above + "\\" + subs[0].name)
            && forall i :: 0 < i < |subs| && subs[i].Key? ==> Upper(up, subs[i].name) != Upper(up, subs[0].name))
      && WellFormed(up, subs[0])
      && WellFormedIn(up, above, subs[1..])
  }

  /** A hive whose root path is a single name. */
  ghost predicate WellFormedHive(up: char -> string, root: Node) {
    root.Key? && WellFormed(up, root) && !HasBackslash(PathOf(root))
  }

  lemma {:induction false} WellFormedExtends(up: char -> string, node: Node)
    requires CaseMap(up) && WellFormed(up, node)
    ensures PathsExtend(up, node)
    decreases node, 1
  {
    if node.Key? { WellFormedExtendsIn(up, node.path.value, node.subkeys); }
  }

  lemma {:induction false} WellFormedExtendsIn(up: char -> string, above: string, subs: seq<Node>)
    requires CaseMap(up) && WellFormedIn(up, above, subs)
    ensures PathsExtendIn(up, Upper(up, above), subs)
    decreases subs, 0
  {
    if subs != [] {
      if subs[0].Key? { UpperStep(up, above, subs[0].name); }
      WellFormedExtends(up, subs[0]);
      WellFormedExtendsIn(up, above, subs[1..]);
    }
  }

  /** The part before the first backslash. */
  function Head(s: string): string {
    if s == "" || s[0] == '\\' then "" else [s[0]] + Head(s[1..])
  }

  lemma {:induction false} HeadOf(a: string, x: string)
    requires '\\' !in a && (x == "" || x[0] == '\\')
    ensures Head(a + x) == a
  {
    if a == "" {
      assert a + x == x;
    } else {
      assert a[0] in a && '\\' !in a[1..];
      HeadOf(a[1..], x);
      assert (a + x)[1..] == a[1..] + x;
    }
  }

  /** The path is that of a child of `above` with this name, or lies below it. */
  predicate AtOrBelow(above: string, name: string, target: string) {
    target == above + "\\" + name || above + "\\" + name + "\\" <= target
  }

  lemma SegmentOf(above: string, name: string, target: string)
    requires '\\' !in name && AtOrBelow(above, name, target)
    ensures |above| + 1 <= |target| && Head(target[|above| + 1..]) == name
  {
    var n := |above| + 1;
    var t := target[n..];
    var x := t[|name|..];
    if target == above + "\\" + name {
      assert t == name;
    } else {
      var q := above + "\\" + name + "\\";
      assert forall i :: 0 <= i < |q| ==> target[i] == q[i];
      assert t[..|name|] == name;
      assert x[0] == q[|q| - 1];
    }
    assert t == name + x;
    HeadOf(name, x);
  }

  /** A path lies at or below one child name only. */
  lemma SiblingsApart(above: string, a: string, b: string, target: string)
    requires '\\' !in a && '\\' !in b && AtOrBelow(above, a, target) && AtOrBelow(above, b, target)
    ensures a == b
  {
    SegmentOf(above, a, target);
    SegmentOf(above, b, target);
  }

  /** Every key at or below a child has its path there. */
  lemma {:induction false} ChildCovers(up: char -> string, above: string, s: Node, n: Node)
    requires CaseMap(up) && s.Key? && s.path == Some(above + "\\" + s.name) && WellFormed(up, s)
    requires n in Preorder(s)
    ensures n.Key? && AtOrBelow(Upper(up, above), Upper(up, s.name), UpperPath(up, n))
  {
    UpperStep(up, above, s.name);
    if n != s {
      WellFormedExtends(up, s);
      BelowExtends(up, UpperPath(up, s), s.subkeys, n);
    }
  }

  /** Searching for a key's own path finds that key. */
  lemma {:induction false} SeekFinds(up: char -> string, node: Node, n: Node)
    requires CaseMap(up) && node.Key? && WellFormed(up, node) && n in Preorder(node)
    ensures n.Key? && Seek(up, node, UpperPath(up, n)) == Some(n)
    decreases node, 1
  {
    if n != node {
      var p := UpperPath(up, node);
      WellFormedExtends(up, node);
      BelowExtends(up, p, node.subkeys, n);
      PrefixTrans(p, p + "\\", UpperPath(up, n));
      SeekInFinds(up, node.path.value, node.subkeys, n);
    }
  }

  lemma {:induction false} SeekInFinds(up: char -> string, above: string, subs: seq<Node>, n: Node)
    requires CaseMap(up) && WellFormedIn(up, above, subs) && n in PreorderAll(subs)
    ensures n.Key? && SeekIn(up, subs, UpperPath(up, n)) == Some(n)
    decreases subs, 0
  {
    hide Upper, PathsExtend, PathsExtendIn;
    var s := subs[0];
    if s.Key? {
      UpperStep(up, above, s.name);
      if n in Preorder(s) {
        ChildCovers(up, above, s, n);
        SeekFinds(up, s, n);
        StrictlyBelow(up, s, n);
      } else {
        SeekInFinds(up, above, subs[1..], n);
        NotInFirst(up, above, subs, n);
      }
    } else {
      SeekInFinds(up, above, subs[1..], n);
    }
  }

  /** Only the key itself has the key's path. */
  lemma StrictlyBelow(up: char -> string, s: Node, n: Node)
    requires CaseMap(up) && s.Key? && WellFormed(up, s) && n in Preorder(s)
    ensures n.Key?
    ensures UpperPath(up, n) == UpperPath(up, s) ==> n == s
    ensures n != s ==> UpperPath(up, s) + "\\" <= UpperPath(up, n)
  {
    if n != s {
      WellFormedExtends(up, s);
      BelowExtends(up, UpperPath(up, s), s.subkeys, n);
    }
  }

  /** A key below a later sibling is out of the first one's reach. */
  lemma NotInFirst(up: char -> string, above: string, subs: seq<Node>, n: Node)
    requires CaseMap(up) && subs != [] && WellFormedIn(up, above, subs) && subs[0].Key?
    requires n in PreorderAll(subs[1..])
    ensures n.Key? && !AtOrBelow(Upper(up, above), Upper(up, subs[0].name), UpperPath(up, n))
  {
    hide Upper, PreorderAll, Preorder;
    var i := ChildWith(up, above, subs[1..], n);
    var s := subs[1..][i];
    assert s == subs[i + 1];
    ChildCovers(up, above, s, n);
    UpperPlain(up, s.name);
    UpperPlain(up, subs[0].name);
    if AtOrBelow(Upper(up, above), Upper(up, subs[0].name), UpperPath(up, n)) {
      SiblingsApart(Upper(up, above), Upper(up, s.name), Upper(up, subs[0].name), UpperPath(up, n));
      assert false;
    }
  }

  lemma {:induction false} ChildWith(up: char -> string, above: string, subs: seq<Node>, n: Node) returns (i: nat)
    requires WellFormedIn(up, above, subs) && n in PreorderAll(subs)
    ensures i < |subs| && subs[i].Key? && n in Preorder(subs[i]) && WellFormed(up, subs[i])
    ensures subs[i].path == Some(above + "\\" + subs[i].name) && !HasBackslash(subs[i].name)
  {
    if n in Preorder(subs[0]) {
      i := 0;
    } else {
      var j := ChildWith(up, above, subs[1..], n);
      i := j + 1;
    }
  }

  /** A key together with the path its values are recorded under. */
  datatype Place = Place(rel: string, node: Node)

  function Places(node: Node, current: string): seq<Place>
    decreases node, 1
  {
    if node.NotAKey? then []
    else [Place(FlatPath(node, current), node)] + PlacesAll(node.subkeys, FlatPath(node, current))
  }

  function PlacesAll(subs: seq<Node>, current: string): seq<Place>
    decreases subs, 0
  {
    if subs == [] then [] else Places(subs[0], current) + PlacesAll(subs[1..], current)
  }

  /** The records of the places, place by place and value by value. */
  function RecordsAt(ps: seq<Place>): seq<Record> {
    if ps == [] then []
    else OwnRecords(ps[0]) + RecordsAt(ps[1..])
  }

  function OwnRecords(p: Place): seq<Record> {
    if p.node.Key? then ValueRecords(p.node.values, p.rel) else []
  }

  lemma {:induction false} RecordsAtJoin(a: seq<Place>, b: seq<Place>)
    ensures RecordsAt(a + b) == RecordsAt(a) + RecordsAt(b)
  {
    hide OwnRecords;
    if a == [] {
      assert a + b == b;
    } else {
      RecordsAtJoin(a[1..], b);
      assert (a + b)[1..] == a[1..] + b && (a + b)[0] == a[0];
      var x, y, z := OwnRecords(a[0]), RecordsAt(a[1..]), RecordsAt(b);
      assert x + (y + z) == x + y + z;
    }
  }

  /** Flattening emits, in preorder, exactly one record per value of each key. */
  lemma {:induction false} FlattenIsPreorder(node: Node, current: string)
    ensures Flatten(node, current) == RecordsAt(Places(node, current))
    ensures |Places(node, current)| == |Preorder(node)|
    ensures forall i :: 0 <= i < |Preorder(node)| ==> Places(node, current)[i].node == Preorder(node)[i]
    decreases node, 1
  {
    if node.Key? {
      var path := FlatPath(node, current);
      FlattenAllIsPreorder(node.subkeys, path);
      assert Places(node, current)[1..] == PlacesAll(node.subkeys, path);
    }
  }

  lemma {:induction false} FlattenAllIsPreorder(subs: seq<Node>, current: string)
    ensures FlattenAll(subs, current) == RecordsAt(PlacesAll(subs, current))
    ensures |PlacesAll(subs, current)| == |PreorderAll(subs)|
    ensures forall i :: 0 <= i < |PreorderAll(subs)| ==> PlacesAll(subs, current)[i].node == PreorderAll(subs)[i]
    decreases subs, 0
  {
    hide Flatten, Places, Preorder;
    if subs != [] {
      FlattenIsPreorder(subs[0], current);
      FlattenAllIsPreorder(subs[1..], current);
      RecordsAtJoin(Places(subs[0], current), PlacesAll(subs[1..], current));
    }
  }

  // ---- Every value has its record -------------------------------------------

  /** How many of the entries are objects. */
  function Objects(values: seq<HiveValue>): nat {
    if values == [] then 0
    else Objects(values[..|values|-1]) + (match values[|values|-1] case NotAValue => 0 case HiveValue(_, _, _) => 1)
  }

  function ObjectsAt(ps: seq<Place>): nat {
    if ps == [] then 0
    else (match ps[0].node case NotAKey => 0 case Key(_, _, values, _) => Objects(values)) + ObjectsAt(ps[1..])
  }

  /** There are as many records as objects, and each object's record comes after those of the
      objects before it, under the key's path and with the object's own name, type and data. */
  lemma {:induction false} EveryValueRecorded(values: seq<HiveValue>, path: string)
    ensures |ValueRecords(values, path)| == Objects(values)
    ensures forall j :: 0 <= j < |values| && values[j].HiveValue? ==>
              && Objects(values[..j]) < |ValueRecords(values, path)|
              && ValueRecords(values, path)[Objects(values[..j])] ==
                 Record(path, values[j].name, values[j].kind, values[j].data)
  {
    if values != [] {
      var n := |values| - 1;
      EveryValueRecorded(values[..n], path);
      forall j | 0 <= j < n && values[j].HiveValue?
        ensures Objects(values[..j]) < Objects(values[..n])
        ensures ValueRecords(values[..n], path)[Objects(values[..j])] ==
                Record(path, values[j].name, values[j].kind, values[j].data)
      {
        assert values[..n][j] == values[j] && values[..n][..j] == values[..j];
      }
    }
  }

  lemma {:induction false} EveryPlaceRecorded(ps: seq<Place>, k: nat, j: nat)
    requires k < |ps| && ps[k].node.Key? && j < |ps[k].node.values| && ps[k].node.values[j].HiveValue?
    ensures |RecordsAt(ps)| == ObjectsAt(ps)
    ensures var at := ObjectsAt(ps[..k]) + Objects(ps[k].node.values[..j]);
            var v := ps[k].node.values[j];
            at < |RecordsAt(ps)| && RecordsAt(ps)[at] == Record(ps[k].rel, v.name, v.kind, v.data)
  {
    hide ValueRecords, Objects;
    AllPlacesCounted(ps);
    if ps[0].node.Key? { EveryValueRecorded(ps[0].node.values, ps[0].rel); }
    if k == 0 {
      assert ps[..0] == [];
    } else {
      EveryPlaceRecorded(ps[1..], k - 1, j);
      assert ps[..k][1..] == ps[1..][..k - 1] && ps[..k][0] == ps[0];
    }
  }

  lemma {:induction false} AllPlacesCounted(ps: seq<Place>)
    ensures |RecordsAt(ps)| == ObjectsAt(ps)
  {
    hide ValueRecords, Objects;
    if ps != [] {
      AllPlacesCounted(ps[1..]);
      if ps[0].node.Key? { EveryValueRecorded(ps[0].node.values, ps[0].rel); }
    }
  }

  /** Flattening gives every object value of every key of the preorder its own record, in
      preorder, under the key's path: as many records as objects, each at the place that the
      objects before it leave it. */
  lemma EveryValueIsFlattened(root: Node, current: string, k: nat, j: nat)
    requires k < |Preorder(root)| && Preorder(root)[k].Key?
    requires j < |Preorder(root)[k].values| && Preorder(root)[k].values[j].HiveValue?
    ensures |Flatten(root, current)| == ObjectsAt(Places(root, current))
    ensures k < |Places(root, current)| && Places(root, current)[k].node == Preorder(root)[k]
    ensures var at := ObjectsAt(Places(root, current)[..k]) + Objects(Preorder(root)[k].values[..j]);
            var v := Preorder(root)[k].values[j];
            && at < |Flatten(root, current)|
            && Flatten(root, current)[at] == Record(Places(root, current)[k].rel, v.name, v.kind, v.data)
  {
    hide Flatten, Places, Preorder, RecordsAt, Objects, ObjectsAt;
    FlattenIsPreorder(root, current);
    EveryPlaceRecorded(Places(root, current), k, j);
    AllPlacesCounted(Places(root, current));
  }

  function Rooted(root: string, rel: string): string {
    if rel == "" then root else root + "\\" + rel
  }

  lemma {:induction false} AfterFirstOf(root: string, rest: string)
    requires !HasBackslash(root)
    ensures HasBackslash(root + "\\" + rest) && AfterFirst(root + "\\" + rest) == rest
  {
    var s := root + "\\" + rest;
    assert s[|root|] == '\\';
    if root == "" {
      assert s[1..] == rest;
    } else {
      assert root[0] in root && !HasBackslash(root[1..]);
      AfterFirstOf(root[1..], rest);
      assert s[1..] == root[1..] + "\\" + rest;
    }
  }

  /** Below the root, the recorded path and the key's own path differ by the root only. */
  lemma {:induction false} PlacesRooted(up: char -> string, root: string, above: string, rel: string, subs: seq<Node>, p: Place)
    requires !HasBackslash(root) && above == Rooted(root, rel)
    requires WellFormedIn(up, above, subs) && p in PlacesAll(subs, rel)
    ensures p.node.Key? && PathOf(p.node) == Rooted(root, p.rel)
    decreases subs
  {
    hide Upper;
    var s := subs[0];
    if p in Places(s, rel) {
      AfterFirstOf(root, s.name);
      var r := FlatPath(s, rel);
      assert PathOf(s) == Rooted(root, r) by {
        if rel != "" {
          assert r == rel + "\\" + s.name;
          assert root + "\\" + rel + "\\" + s.name == root + "\\" + (rel + "\\" + s.name);
        }
      }
      if p != Place(r, s) {
        PlacesRooted(up, root, PathOf(s), r, s.subkeys, p);
      }
    } else {
      PlacesRooted(up, root, above, rel, subs[1..], p);
    }
  }

  /** How a recorded path is asked for. */
  function Query(rel: string): string {
    if rel == "" then "ROOT" else "ROOT\\" + rel
  }

  lemma RootIsUpper(up: char -> string)
    requires CaseMap(up)
    ensures Upper(up, "ROOT") == "ROOT"
  {
    UpperJoin(up, "RO", "OT");
    UpperJoin(up, "R", "O");
    UpperJoin(up, "O", "T");
    assert "RO" == "R" + "O" && "OT" == "O" + "T" && "ROOT" == "RO" + "OT";
    assert Upper(up, "R") == up('R') + Upper(up, "") && Upper(up, "O") == up('O') + Upper(up, "")
        && Upper(up, "T") == up('T') + Upper(up, "");
  }

  lemma QueryNormalized(up: char -> string, root: Node, rel: string)
    requires CaseMap(up) && root.Key?
    ensures Normalized(up, root, Query(rel)) == Upper(up, Rooted(PathOf(root), rel))
  {
    hide Upper, CaseMap;
    var q := Query(rel);
    var rest := q[4..];
    assert q == "ROOT" + rest;
    RootIsUpper(up);
    UpperJoin(up, "ROOT", rest);
    UpperJoin(up, PathOf(root), rest);
    if rel != "" {
      assert rest == "\\" + rel;
      assert PathOf(root) + rest == PathOf(root) + "\\" + rel;
    } else {
      assert rest == "" && PathOf(root) + rest == PathOf(root);
    }
  }

  /** On a well-formed hive, asking for the path a key's values are recorded under leads
      back to that key. */
  lemma NavigateReaches(up: char -> string, root: Node, p: Place)
    requires CaseMap(up) && WellFormedHive(up, root) && p in Places(root, "")
    ensures Navigate(up, root, Query(p.rel)) == Some(p.node)
  {
    hide Upper, Seek, Normalized;
    FlattenIsPreorder(root, "");
    var i :| 0 <= i < |Places(root, "")| && Places(root, "")[i] == p;
    assert p.node == Preorder(root)[i];
    assert FlatPath(root, "") == "";
    if i > 0 {
      assert PlacesAll(root.subkeys, "")[i - 1] == p;
      PlacesRooted(up, PathOf(root), PathOf(root), "", root.subkeys, p);
    }
    assert PathOf(p.node) == Rooted(PathOf(root), p.rel);
    SeekFinds(up, root, p.node);
    QueryNormalized(up, root, p.rel);
  }

  lemma {:induction false} RecordPlace(ps: seq<Place>, i: nat) returns (k: nat, j: nat)
    requires i < |RecordsAt(ps)|
    ensures k < |ps| && ps[k].node.Key? && j < |ps[k].node.values|
    ensures var r := RecordsAt(ps)[i];
            r.keyPath == ps[k].rel && ps[k].node.values[j] == HiveValue(r.name, r.kind, r.data)
  {
    var own := if ps[0].node.Key? then ValueRecords(ps[0].node.values, ps[0].rel) else [];
    if i < |own| {
      k := 0;
      j := ValueOf(ps[0].node.values, ps[0].rel, i);
    } else {
      k, j := RecordPlace(ps[1..], i - |own|);
      k := k + 1;
    }
  }

  lemma {:induction false} ValueOf(values: seq<HiveValue>, path: string, i: nat) returns (j: nat)
    requires i < |ValueRecords(values, path)|
    ensures j < |values|
    ensures var r := ValueRecords(values, path)[i];
            r.keyPath == path && values[j] == HiveValue(r.name, r.kind, r.data)
  {
    var n := |values| - 1;
    if i < |ValueRecords(values[..n], path)| {
      j := ValueOf(values[..n], path, i);
    } else {
      j := n;
    }
  }

  /** Flattening and navigating agree: every record of a well-formed hive names a path that
      navigates to the key holding the recorded value. */
  lemma RecordIsReachable(up: char -> string, root: Node, i: nat) returns (n: Node, j: nat)
    requires CaseMap(up) && WellFormedHive(up, root) && i < |Flatten(root, "")|
    ensures var r := Flatten(root, "")[i];
            && Navigate(up, root, Query(r.keyPath)) == Some(n)
            && n.Key? && j < |n.values| && n.values[j] == HiveValue(r.name, r.kind, r.data)
  {
    hide Flatten, Places, Navigate, Query;
    FlattenIsPreorder(root, "");
    var k, v := RecordPlace(Places(root, ""), i);
    n, j := Places(root, "")[k].node, v;
    NavigateReaches(up, root, Places(root, "")[k]);
  }

  /** And the path a key's values are recorded under is its own, without the root's. */
  lemma PlaceKeepsPath(up: char -> string, root: Node, p: Place)
    requires WellFormedHive(up, root) && p in Places(root, "")
    ensures p.node.Key? && PathOf(p.node) == if p.rel == "" then PathOf(root) else PathOf(root) + "\\" + p.rel
  {
    assert FlatPath(root, "") == "";
    if p != Places(root, "")[0] {
      assert p in PlacesAll(root.subkeys, "");
      PlacesRooted(up, PathOf(root), PathOf(root), "", root.subkeys, p);
    }
  }
}
