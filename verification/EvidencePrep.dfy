/** Preparing copied evidence: every directory entry is opened and validated before the first
    owner or mode is changed. */
module EvidencePrep {
  import opened Options

  datatype Meta = Meta(uid: int, gid: int, mode: int)

  /** What opening and inspecting an entry tells; the immutable flag is None when it cannot
      be read. */
  datatype Entry = Unopenable | Entry(regular: bool, links: nat, immutable: Option<bool>)

  datatype Service = Service(uid: int, gid: int)

  const PREPARED_MODE: int := 420 // 0644

  /** Opened and found a single regular file of root or the service. */
  predicate Sound(svc: Service, e: Entry, m: Meta) {
    e.Entry? && e.regular && e.links == 1 && (m.uid == 0 || m.uid == svc.uid)
  }

  predicate Accepted(svc: Service, e: Entry, m: Meta) {
    Sound(svc, e, m) && e.immutable.Some?
  }

  predicate Mutable(e: Entry) {
    e.Entry? && e.immutable == Some(false)
  }

  predicate Distinct(s: seq<string>) {
    forall i, j :: 0 <= i < j < |s| ==> s[i] != s[j]
  }

  class EvidenceDir {
    const entries: map<string, Entry>
    var meta: map<string, Meta>
    /** The descriptors held open, by entry name. */
    var held: set<string>

    constructor (entries: map<string, Entry>, meta: map<string, Meta>)
      ensures this.entries == entries && this.meta == meta && held == {}
    {
      this.entries := entries;
      this.meta := meta;
      held := {};
    }

    /** Open and validate one entry. A refused entry is closed again, except that one whose
        flags cannot be read stays open. */
    method OpenEntry(name: string, svc: Service) returns (accepted: bool, immutable: bool)
      requires name in entries && name in meta
      modifies this`held
      ensures accepted == Accepted(svc, entries[name], meta[name])
      ensures accepted ==> held == old(held) + {name} && immutable == !Mutable(entries[name])
      ensures !accepted ==>
                held == old(held) + (if Sound(svc, entries[name], meta[name]) then {name} else {})
    {
      immutable := false;
      var e := entries[name];
      if e.Unopenable? { return false, false; }
      if !e.regular { return false, false; }
      if e.links != 1 { return false, false; }
      if meta[name].uid != 0 && meta[name].uid != svc.uid { return false, false; }
      held := held + {name};
      if e.immutable.None? { return false, false; }
      return true, e.immutable.value;
    }

    /** Prepare the directory. If any entry is refused nothing changes; otherwise, metadata
        calls succeeding, exactly the entries that are not immutable end service-owned with
        the prepared mode. Every descriptor of an accepted entry is closed on all exits: only
        the first refused entry can stay open, and only when its flags could not be read. */
    method Prepare(names: seq<string>, svc: Service, chownOk: string -> bool, chmodOk: string -> bool)
      returns (prepared: Option<nat>, ghost refused: Option<string>)
      requires Distinct(names) && held == {}
      requires forall n :: n in names ==> n in entries && n in meta
      modifies this
      ensures refused.Some? <==>
                exists n :: n in names && !Accepted(svc, entries[n], old(meta)[n])
      ensures refused.Some? ==> refused.value in names && !Accepted(svc, entries[refused.value], old(meta)[refused.value])
      ensures refused.Some? || names == [] ==> prepared.None? && meta == old(meta)
      ensures refused.None? ==> held == {}
      ensures refused.Some? ==>
                held == if Sound(svc, entries[refused.value], old(meta)[refused.value]) then {refused.value} else {}
      ensures meta.Keys == old(meta).Keys
      ensures forall n :: n in old(meta) && !(n in names && Mutable(entries[n])) ==> meta[n] == old(meta)[n]
      ensures prepared.Some? ==>
                forall n :: n in names && Mutable(entries[n]) ==> meta[n] == Meta(svc.uid, svc.gid, PREPARED_MODE)
      ensures prepared.Some? ==> prepared.value == |set n | n in names && Mutable(entries[n])|
      ensures prepared.Some? <==>
                refused.None? && names != [] && forall n :: n in names && Mutable(entries[n]) ==> chownOk(n) && chmodOk(n)
    {
      hide Accepted, Sound, Mutable;
      refused := None;
      if names == [] { return None, None; }
      var kept, bad := ValidateAll(names, svc);
      refused := bad;
      if bad.Some? {
        CloseAll(kept);
        return None, refused;
      }
      assert held == set n | n in names && Mutable(entries[n]);
      var ok := ChangeAll(kept, svc, chownOk, chmodOk);
      CloseAll(kept);
      if ok { prepared := Some(|kept|); } else { prepared := None; }
    }

    /** The first loop: validate every entry, holding on to those that are to change. */
    method ValidateAll(names: seq<string>, svc: Service) returns (kept: seq<string>, refused: Option<string>)
      requires Distinct(names) && held == {}
      requires forall n :: n in names ==> n in entries && n in meta
      modifies this`held
      ensures forall n :: n in kept ==> n in names && Mutable(entries[n])
      ensures refused.None? ==>
                && (forall n :: n in names ==> Accepted(svc, entries[n], meta[n]))
                && (forall n :: n in names && Mutable(entries[n]) ==> n in kept)
                && held == (set n | n in kept) && |held| == |kept|
      ensures refused.Some? ==>
                && refused.value in names && !Accepted(svc, entries[refused.value], meta[refused.value])
                && refused.value !in kept
                && held == (set n | n in kept) +
                           (if Sound(svc, entries[refused.value], meta[refused.value]) then {refused.value} else {})
    {
      kept := [];
      for i := 0 to |names|
        invariant forall n :: n in names[..i] ==> Accepted(svc, entries[n], meta[n])
        invariant forall n :: n in kept <==> n in names[..i] && Mutable(entries[n])
        invariant held == (set n | n in kept) && |held| == |kept|
      {
        assert names[..i + 1] == names[..i] + [names[i]];
        assert names[i] in names && names[i] !in names[..i];
        var ok, immutable := OpenEntry(names[i], svc);
        if !ok { return kept, Some(names[i]); }
        if immutable {
          held := held - {names[i]};
        } else {
          kept := kept + [names[i]];
        }
      }
      assert names[..|names|] == names;
      return kept, None;
    }

    /** The second loop: change owner and mode through the held descriptors. */
    method ChangeAll(kept: seq<string>, svc: Service, chownOk: string -> bool, chmodOk: string -> bool)
      returns (ok: bool)
      requires forall n :: n in kept ==> n in meta
      modifies this`meta
      ensures meta.Keys == old(meta).Keys
      ensures forall n :: n in old(meta) && n !in kept ==> meta[n] == old(meta)[n]
      ensures ok <==> forall n :: n in kept ==> chownOk(n) && chmodOk(n)
      ensures ok ==> forall n :: n in kept ==> meta[n] == Meta(svc.uid, svc.gid, PREPARED_MODE)
    {
      for i := 0 to |kept|
        invariant meta.Keys == old(meta).Keys
        invariant forall n :: n in old(meta) && n !in kept[..i] ==> meta[n] == old(meta)[n]
        invariant forall n :: n in kept[..i] ==> chownOk(n) && chmodOk(n) && meta[n] == Meta(svc.uid, svc.gid, PREPARED_MODE)
      {
        assert kept[..i + 1] == kept[..i] + [kept[i]];
        var n := kept[i];
        assert n in kept;
        if !chownOk(n) { return false; }
        meta := meta[n := meta[n].(uid := svc.uid, gid := svc.gid)];
        if !chmodOk(n) { return false; }
        meta := meta[n := meta[n].(mode := PREPARED_MODE)];
      }
      assert kept[..|kept|] == kept;
      return true;
    }

    method CloseAll(kept: seq<string>)
      modifies this`held
      ensures held == old(held) - (set n | n in kept)
    {
      for i := 0 to |kept|
        invariant held == old(held) - (set n | n in kept[..i])
      {
        assert kept[..i + 1] == kept[..i] + [kept[i]];
        held := held - {kept[i]};
      }
      assert kept[..|kept|] == kept;
    }
  }

  /** What is accepted, what of it is to change, and to which mode: read and write for the owner,
      read for everyone else. */
  lemma AcceptedMeans(svc: Service, e: Entry, m: Meta)
    ensures Accepted(svc, e, m) <==>
              e.Entry? && e.regular && e.links == 1 && (m.uid == 0 || m.uid == svc.uid) && e.immutable.Some?
    ensures Accepted(svc, e, m) ==> (Mutable(e) <==> !e.immutable.value)
    ensures PREPARED_MODE == (4 + 2) * 64 + 4 * 8 + 4
  {
  }
}
