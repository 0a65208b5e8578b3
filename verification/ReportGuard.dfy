/** The guard that lets one report be generated per case at a time, under any interleaving of
    request handlers. */
module ReportGuard {

  datatype Phase = Waiting | Generating | TurnedAway | Done

  /** A handler, and the case it was asked to report on. */
  datatype Handler = Handler(case_: string, phase: Phase)

  datatype Server = Server(handlers: seq<Handler>, inFlight: set<string>)

  /** A handler takes the lock and claims its case or is turned away; or it leaves, by
      whatever path, through the clause that releases its case. */
  datatype Move = Arrive(case_: string) | Claim(who: nat) | Leave(who: nat)

  function Step(s: Server, m: Move): Server {
    match m
    case Arrive(c) => s.(handlers := s.handlers + [Handler(c, Waiting)])
    case Claim(i) =>
      if i >= |s.handlers| || !s.handlers[i].phase.Waiting? then s
      else
        var h := s.handlers[i];
        if h.case_ in s.inFlight then s.(handlers := s.handlers[i := h.(phase := TurnedAway)])
        else Server(s.handlers[i := h.(phase := Generating)], s.inFlight + {h.case_})
    case Leave(i) =>
      if i >= |s.handlers| || !s.handlers[i].phase.Generating? then s
      else Server(s.handlers[i := s.handlers[i].(phase := Done)], s.inFlight - {s.handlers[i].case_})
  }

  function Run(ms: seq<Move>): Server {
    if ms == [] then Server([], {}) else Step(Run(ms[..|ms|-1]), ms[|ms|-1])
  }

  /** At most one handler per case is generating, and the in-flight set is exactly their cases. */
  ghost predicate Exclusive(s: Server) {
    && (forall i, j :: 0 <= i < j < |s.handlers| && s.handlers[i].phase.Generating? && s.handlers[j].phase.Generating?
                       ==> s.handlers[i].case_ != s.handlers[j].case_)
    && (forall c :: c in s.inFlight <==>
                    exists i :: 0 <= i < |s.handlers| && s.handlers[i].phase.Generating? && s.handlers[i].case_ == c)
  }

  ghost predicate Occupied(s: Server, c: string) {
    exists i :: 0 <= i < |s.handlers| && s.handlers[i].phase.Generating? && s.handlers[i].case_ == c
  }

  /** Setting one handler's phase moves only its own case in or out. */
  lemma OccupiedAfter(s: Server, t: Server, i: nat, p: Phase, c: string)
    requires i < |s.handlers| && t.handlers == s.handlers[i := s.handlers[i].(phase := p)]
    ensures c != s.handlers[i].case_ ==> (Occupied(t, c) <==> Occupied(s, c))
    ensures p.Generating? ==> Occupied(t, s.handlers[i].case_)
  {
    if c != s.handlers[i].case_ {
      if k :| 0 <= k < |s.handlers| && s.handlers[k].phase.Generating? && s.handlers[k].case_ == c {
        assert t.handlers[k] == s.handlers[k];
      }
      if k :| 0 <= k < |t.handlers| && t.handlers[k].phase.Generating? && t.handlers[k].case_ == c {
        assert s.handlers[k] == t.handlers[k];
      }
    }
    assert t.handlers[i].case_ == s.handlers[i].case_;
  }

  lemma StepExclusive(s: Server, m: Move)
    requires Exclusive(s)
    ensures Exclusive(Step(s, m))
  {
    var t := Step(s, m);
    assert forall c :: c in s.inFlight <==> Occupied(s, c);
    match m
    case Arrive(_) =>
      forall c ensures c in t.inFlight <==> Occupied(t, c) {
        if Occupied(s, c) {
          var k :| 0 <= k < |s.handlers| && s.handlers[k].phase.Generating? && s.handlers[k].case_ == c;
          assert t.handlers[k] == s.handlers[k];
        }
      }
    case Claim(i) =>
      if i < |s.handlers| && s.handlers[i].phase.Waiting? {
        forall c ensures c in t.inFlight <==> Occupied(t, c) {
          OccupiedAfter(s, t, i, t.handlers[i].phase, c);
          if c == s.handlers[i].case_ && c in s.inFlight {
            var k :| 0 <= k < |s.handlers| && s.handlers[k].phase.Generating? && s.handlers[k].case_ == c;
            assert t.handlers[k] == s.handlers[k];
          }
        }
      }
    case Leave(i) =>
      if i < |s.handlers| && s.handlers[i].phase.Generating? {
        forall c ensures c in t.inFlight <==> Occupied(t, c) { OccupiedAfter(s, t, i, Done, c); }
      }
  }

  /** Whatever the interleaving, generation is exclusive per case. */
  lemma {:induction false} GenerationIsExclusive(ms: seq<Move>)
    ensures Exclusive(Run(ms))
  {
    if ms != [] {
      GenerationIsExclusive(ms[..|ms|-1]);
      StepExclusive(Run(ms[..|ms|-1]), ms[|ms|-1]);
    }
  }

  /** A handler that is turned away frees nobody's slot, then or later, and the one holding the
      slot keeps it until it leaves itself. */
  lemma SlotIsKept(ms: seq<Move>, m: Move, k: nat)
    requires k < |Run(ms).handlers| && Run(ms).handlers[k].phase.Generating? && m != Leave(k)
    ensures var t := Step(Run(ms), m);
            t.handlers[k].phase.Generating? && Run(ms).handlers[k].case_ in t.inFlight
  {
    var s := Run(ms);
    GenerationIsExclusive(ms);
    assert s.handlers[k].case_ in s.inFlight;
  }

  /** A claim succeeds exactly when no handler is generating for the case, and otherwise turns the
      handler away; it moves no other handler and nobody else's slot. */
  lemma ClaimMeans(ms: seq<Move>, i: nat)
    requires i < |Run(ms).handlers| && Run(ms).handlers[i].phase.Waiting?
    ensures var s, t := Run(ms), Step(Run(ms), Claim(i));
            var c := s.handlers[i].case_;
            && |t.handlers| == |s.handlers| && (forall k :: 0 <= k < |s.handlers| && k != i ==> t.handlers[k] == s.handlers[k])
            && t.handlers[i].case_ == c
            && (t.handlers[i].phase.Generating? <==> !Occupied(s, c))
            && (t.handlers[i].phase.TurnedAway? <==> Occupied(s, c))
            && t.inFlight == s.inFlight + {c}
  {
    GenerationIsExclusive(ms);
    assert Run(ms).handlers[i].case_ in Run(ms).inFlight <==> Occupied(Run(ms), Run(ms).handlers[i].case_);
  }

  /** A handler that leaves frees its case for the next claim, and no other. */
  lemma LeavingFrees(ms: seq<Move>, i: nat)
    requires i < |Run(ms).handlers| && Run(ms).handlers[i].phase.Generating?
    ensures var s, t := Run(ms), Step(Run(ms), Leave(i));
            var c := s.handlers[i].case_;
            && t.handlers == s.handlers[i := Handler(c, Done)] && !Occupied(t, c) && t.inFlight == s.inFlight - {c}
  {
    var s, t := Run(ms), Step(Run(ms), Leave(i));
    var c := s.handlers[i].case_;
    GenerationIsExclusive(ms);
    assert forall k :: 0 <= k < |t.handlers| && k != i ==> t.handlers[k] == s.handlers[k];
  }

  /** A handler that arrives waits to claim its case, and disturbs nothing. */
  lemma ArrivingWaits(ms: seq<Move>, c: string)
    ensures var s, t := Run(ms), Step(Run(ms), Arrive(c));
            && t.inFlight == s.inFlight && |t.handlers| == |s.handlers| + 1
            && t.handlers[..|s.handlers|] == s.handlers && t.handlers[|s.handlers|] == Handler(c, Waiting)
  {
  }
}
