/** Sessions over time: logins, cookie rotation by the middleware, explicit refreshes and the
    clock, in any order. No rotation moves the ceiling a login has set. */
module SessionCeiling {
  import opened Options
  import opened SessionEnvelope

  /** What the auth service returns for a refresh; `sub` may be left out of the answer. */
  datatype Refreshed = Refreshed(operator: bool, at: string, rt: string, exp: int, sub: Option<string>, fp: string)

  datatype Login = Login(at: string, rt: string, exp: int, sub: string, fp: string)

  /** What a response does to the session cookie. */
  datatype Cookie = Keep | Clear | Set(token: string)

  function Rotated(env: Env, prior: Payload, r: Refreshed, now: int): string {
    Generate(env, r.at, r.rt, r.exp, if r.sub.Some? then r.sub.value else prior.sub, r.fp, prior.eiat, now)
  }

  /** The middleware: an access token that no longer resolves is refreshed, for operators
      only; a session that cannot be kept is dropped. */
  function Resolve(env: Env, cookie: string, resolved: bool, refreshed: Option<Refreshed>, now: int): Cookie {
    match Verify(env, cookie, now)
    case None => Keep
    case Some(p) =>
      if resolved then Keep
      else if p.rt != "" && refreshed.Some? && refreshed.value.operator then
        Set(Rotated(env, p, refreshed.value, now))
      else Clear
  }

  /** The explicit refresh endpoint. */
  function Refresh(env: Env, cookie: string, refreshed: Option<Refreshed>, now: int): Cookie {
    match Verify(env, cookie, now)
    case None => Keep
    case Some(p) =>
      if p.rt == "" then Keep
      else if refreshed.Some? && refreshed.value.operator then Set(Rotated(env, p, refreshed.value, now))
      else Clear
  }

  /** An issued envelope, the time of the login it descends from, and when it was issued. */
  datatype Issued = Issued(token: string, login: int, at: int)

  datatype Portal = Portal(now: int, issued: seq<Issued>)

  datatype Event =
    | Tick(seconds: nat)
    | LoggedIn(login: Login)
    | Request(from: nat, resolved: bool, refreshed: Option<Refreshed>)
    | Renewal(from: nat, refreshed: Option<Refreshed>)

  function Descend(s: Portal, from: nat, c: Cookie): Portal
    requires from < |s.issued|
  {
    match c
    case Set(token) => s.(issued := s.issued + [Issued(token, s.issued[from].login, s.now)])
    case _ => s
  }

  /** One event; requests present some envelope issued before, however old. */
  function Step(env: Env, s: Portal, ev: Event): Portal {
    match ev
    case Tick(n) => s.(now := s.now + n)
    case LoggedIn(l) =>
      s.(issued := s.issued + [Issued(Generate(env, l.at, l.rt, l.exp, l.sub, l.fp, None, s.now), s.now, s.now)])
    case Request(i, resolved, r) =>
      if i >= |s.issued| then s else Descend(s, i, Resolve(env, s.issued[i].token, resolved, r, s.now))
    case Renewal(i, r) =>
      if i >= |s.issued| then s else Descend(s, i, Refresh(env, s.issued[i].token, r, s.now))
  }

  function Run(env: Env, start: int, evs: seq<Event>): Portal {
    if evs == [] then Portal(start, []) else Step(env, Run(env, start, evs[..|evs|-1]), evs[|evs|-1])
  }

  // ---- What every step keeps ------------------------------------------------

  /** The envelope carries the issued-at of its login and was issued within the ceiling. */
  ghost predicate Descends(env: Env, i: Issued) {
    && (exists p :: i.token == Sealed(env, p) && p.eiat == Some(i.login))
    && i.login <= i.at && i.at - i.login <= ABSOLUTE_LIFETIME
  }

  ghost predicate AllDescend(env: Env, s: Portal) {
    forall k :: 0 <= k < |s.issued| ==> Descends(env, s.issued[k]) && s.issued[k].at <= s.now
  }

  /** What verifies carries the login time, and the ceiling has not passed. */
  lemma VerifiesWithin(env: Env, i: Issued, now: int)
    requires Faithful(env) && Descends(env, i)
    ensures Verify(env, i.token, now).Some? ==>
              Verify(env, i.token, now).value.eiat == Some(i.login) && now - i.login <= ABSOLUTE_LIFETIME
  {
    hide Verify, Sealed;
    var p :| i.token == Sealed(env, p) && p.eiat == Some(i.login);
    SealedVerifies(env, p, now);
  }

  lemma RotationDescends(env: Env, s: Portal, from: nat, r: Refreshed)
    requires Faithful(env) && AllDescend(env, s) && from < |s.issued|
    requires Verify(env, s.issued[from].token, s.now).Some?
    ensures var p := Verify(env, s.issued[from].token, s.now).value;
            Descends(env, Issued(Rotated(env, p, r, s.now), s.issued[from].login, s.now))
  {
    hide Verify, Sealed;
    VerifiesWithin(env, s.issued[from], s.now);
    var p := Verify(env, s.issued[from].token, s.now).value;
    var q := Payload(r.at, r.rt, r.exp, if r.sub.Some? then r.sub.value else p.sub, r.fp, p.eiat);
    assert Rotated(env, p, r, s.now) == Sealed(env, q) && q.eiat == Some(s.issued[from].login);
  }

  lemma StepDescends(env: Env, s: Portal, ev: Event)
    requires Faithful(env) && AllDescend(env, s)
    ensures AllDescend(env, Step(env, s, ev))
  {
    hide Verify, Sealed, Rotated;
    match ev
    case Tick(_) =>
    case LoggedIn(l) =>
      var p := Payload(l.at, l.rt, l.exp, l.sub, l.fp, Some(s.now));
      assert Generate(env, l.at, l.rt, l.exp, l.sub, l.fp, None, s.now) == Sealed(env, p);
    case Request(i, _, r) =>
      if i < |s.issued| && r.Some? && Verify(env, s.issued[i].token, s.now).Some? {
        RotationDescends(env, s, i, r.value);
      }
    case Renewal(i, r) =>
      if i < |s.issued| && r.Some? && Verify(env, s.issued[i].token, s.now).Some? {
        RotationDescends(env, s, i, r.value);
      }
  }

  lemma {:induction false} RunDescends(env: Env, start: int, evs: seq<Event>)
    requires Faithful(env)
    ensures AllDescend(env, Run(env, start, evs))
  {
    hide Step;
    if evs != [] {
      RunDescends(env, start, evs[..|evs|-1]);
      StepDescends(env, Run(env, start, evs[..|evs|-1]), evs[|evs|-1]);
    }
  }

  /** Over any interleaving, every envelope was issued at most 43200 seconds after the login
      it descends from, verifies only up to then, and always carries that login's time,
      however often it was rotated on the way. */
  lemma AbsoluteCeiling(env: Env, start: int, evs: seq<Event>, k: nat, time: int)
    requires Faithful(env) && k < |Run(env, start, evs).issued|
    ensures var i := Run(env, start, evs).issued[k];
            && 0 <= i.at - i.login <= 43200
            && (time - i.login > 43200 ==> Verify(env, i.token, time).None?)
            && (Verify(env, i.token, time).Some? ==> Verify(env, i.token, time).value.eiat == Some(i.login))
  {
    hide Verify, Run, Sealed;
    RunDescends(env, start, evs);
    VerifiesWithin(env, Run(env, start, evs).issued[k], time);
  }

  /** Once a session has passed its ceiling, no event derives a new envelope from it. */
  lemma NoRevival(env: Env, start: int, evs: seq<Event>, k: nat, resolved: bool, r: Option<Refreshed>)
    requires Faithful(env) && k < |Run(env, start, evs).issued|
    requires var s := Run(env, start, evs); s.now - s.issued[k].login > 43200
    ensures var s := Run(env, start, evs);
            && Step(env, s, Request(k, resolved, r)) == s
            && Step(env, s, Renewal(k, r)) == s
  {
    hide Verify, Run, Rotated, Sealed, Faithful;
    var s := Run(env, start, evs);
    AbsoluteCeiling(env, start, evs, k, s.now);
  }

  // ---- What a rotation yields -----------------------------------------------

  /** A rotated envelope carries the new tokens and, if these are usable, verifies to them at
      exactly the times its login's ceiling still allows. */
  lemma RotationVerifies(env: Env, prior: Payload, r: Refreshed, now: int, time: int)
    requires Faithful(env) && prior.eiat.Some?
    ensures var sub := if r.sub.Some? then r.sub.value else prior.sub;
            Verify(env, Rotated(env, prior, r, now), time) ==
            if r.at != "" && sub != "" && time - prior.eiat.value <= 43200
            then Some(Payload(r.at, r.rt, r.exp, sub, r.fp, prior.eiat)) else None
  {
    hide Verify, Sealed;
    var sub := if r.sub.Some? then r.sub.value else prior.sub;
    SealedVerifies(env, Payload(r.at, r.rt, r.exp, sub, r.fp, prior.eiat), time);
  }

  /** The middleware fails closed and the endpoint rotates: a verified session that does not
      resolve is rotated, for an operator holding a refresh token, or dropped; the endpoint rotates
      every verified session with a refresh token whose refresh yields an operator, drops it
      otherwise, and leaves alone what it cannot refresh. */
  lemma MiddlewareFailsClosed(env: Env, cookie: string, resolved: bool, r: Option<Refreshed>, now: int)
    ensures var v := Verify(env, cookie, now);
            var granted := r.Some? && r.value.operator;
            var c, d := Resolve(env, cookie, resolved, r, now), Refresh(env, cookie, r, now);
            && (c.Keep? <==> v.None? || resolved)
            && (c.Set? <==> v.Some? && !resolved && v.value.rt != "" && granted)
            && (d.Keep? <==> v.None? || v.value.rt == "")
            && (d.Set? <==> v.Some? && v.value.rt != "" && granted)
            && (c.Set? && d.Set? ==> c == d)
            && (d.Set? ==> d.token == Rotated(env, v.value, r.value, now))
  {
    hide Verify, Rotated;
  }
}
