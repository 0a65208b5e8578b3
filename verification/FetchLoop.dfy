/** Fetching a URL over redirects and retries, against a network that may answer anything. */
module FetchLoop {
  import opened Options

  /** A URL's parts; the port is invalid when reading it raises. */
  datatype Parsed = Parsed(scheme: string, host: Option<string>, portValid: bool)

  /** Address checks and URL handling: `routable` is None for text that is no address. */
  datatype Policy = Policy(parse: string -> Parsed, join: (string, string) -> string, allowed: set<string>,
                           ipLiteral: string -> bool, httpsOnly: bool, routable: string -> Option<bool>)

  /** One answer: the connection fails, a redirect (an empty location is a missing one), an
      error status, or a body with its announced length and the chunks actually sent. */
  datatype Reply =
    | Broken
    | Redirect(location: string)
    | Failed(status: int)
    | Body(announced: Option<int>, chunks: seq<seq<int>>)

  /** What the network does at each hop of each attempt, and which failures are retried. */
  datatype Network = Network(resolve: (nat, nat) -> seq<string>, reply: (nat, nat) -> Reply, retried: nat -> bool)

  datatype Exchange = Exchange(attempt: nat, hop: nat, host: string, address: string, authorized: bool)

  datatype Outcome = Fetched(body: seq<int>) | TooLarge | Refused | Trouble

  function HostOf(pol: Policy, url: string): string {
    var h := pol.parse(url).host;
    if h.Some? then h.value else ""
  }

  /** The URL check made before every hop. */
  predicate Admitted(pol: Policy, url: string) {
    var p := pol.parse(url);
    && !pol.ipLiteral(HostOf(pol, url))
    && p.host.Some? && p.host.value in pol.allowed
    && (pol.httpsOnly ==> p.scheme == "https")
    && (p.scheme == "http" || p.scheme == "https")
  }

  /** Every address of the answer is one we may dial. */
  predicate Vetted(pol: Policy, addresses: seq<string>) {
    forall i :: 0 <= i < |addresses| ==> pol.routable(addresses[i]) == Some(true)
  }

  /** Refuse the whole answer if any address is not routable; otherwise take the first. */
  method ResolveAndPin(pol: Policy, addresses: seq<string>) returns (pinned: Option<string>)
    ensures pinned.Some? <==> addresses != [] && Vetted(pol, addresses)
    ensures pinned.Some? ==> pinned.value == addresses[0]
  {
    pinned := None;
    for i := 0 to |addresses|
      invariant forall j :: 0 <= j < i ==> pol.routable(addresses[j]) == Some(true)
      invariant pinned == if i == 0 then None else Some(addresses[0])
    {
      if pol.routable(addresses[i]) != Some(true) {
        return None;
      }
      if pinned.None? { pinned := Some(addresses[i]); }
    }
  }

  function Total(chunks: seq<seq<int>>): seq<int> {
    if chunks == [] then [] else Total(chunks[..|chunks|-1]) + chunks[|chunks|-1]
  }

  /** Read the chunks, giving up as soon as there is more than the limit. */
  method ReadBody(chunks: seq<seq<int>>, maxBytes: nat) returns (body: Option<seq<int>>)
    ensures body.Some? <==> |Total(chunks)| <= maxBytes
    ensures body.Some? ==> body.value == Total(chunks)
  {
    var got: seq<int> := [];
    for i := 0 to |chunks|
      invariant got == Total(chunks[..i]) && |got| <= maxBytes
    {
      assert chunks[..i + 1][..i] == chunks[..i];
      got := got + chunks[i];
      if |got| > maxBytes {
        TotalGrows(chunks, i + 1);
        return None;
      }
    }
    assert chunks[..|chunks|] == chunks;
    return Some(got);
  }

  lemma {:induction false} TotalGrows(chunks: seq<seq<int>>, n: nat)
    requires n <= |chunks|
    ensures |Total(chunks[..n])| <= |Total(chunks)|
    decreases |chunks| - n
  {
    if n == |chunks| {
      assert chunks[..n] == chunks;
    } else {
      assert chunks[..n + 1][..n] == chunks[..n];
      TotalGrows(chunks, n + 1);
    }
  }

  // ---- What an attempt comes to ---------------------------------------------

  predicate Fits(announced: Option<int>, chunks: seq<seq<int>>, maxBytes: nat) {
    (announced.Some? ==> announced.value <= maxBytes) && |Total(chunks)| <= maxBytes
  }

  /** The hop may be dialled: the URL passes its check and every resolved address is vetted. */
  predicate Dialable(pol: Policy, addresses: seq<string>, url: string) {
    Admitted(pol, url) && pol.parse(url).portValid && addresses != [] && Vetted(pol, addresses)
  }

  /** The URL of a hop: the previous one joined with the location it answered. */
  function UrlAt(pol: Policy, net: Network, url: string, attempt: nat, hop: nat): string {
    if hop == 0 then url
    else
      var before := UrlAt(pol, net, url, attempt, hop - 1);
      match net.reply(attempt, hop - 1)
      case Redirect(location) => pol.join(before, location)
      case _ => before
  }

  /** The attempt gets to dial this hop: the hop and all before it are dialable, and each of
      those before answered with a location. */
  ghost predicate Reaches(pol: Policy, net: Network, url: string, attempt: nat, hop: nat) {
    && (forall i :: 0 <= i <= hop ==> Dialable(pol, net.resolve(attempt, i), UrlAt(pol, net, url, attempt, i)))
    && (forall i :: 0 <= i < hop ==> net.reply(attempt, i).Redirect? && net.reply(attempt, i).location != "")
  }

  /** What the last answer of an attempt makes of it. */
  function Verdict(reply: Reply, maxBytes: nat): Outcome {
    match reply
    case Broken => Trouble
    case Failed(_) => Trouble
    case Redirect(_) => Refused
    case Body(announced, chunks) => if Fits(announced, chunks, maxBytes) then Fetched(Total(chunks)) else TooLarge
  }

  /** How many of the first `limit` hops are dialled. */
  ghost function Dialled(pol: Policy, net: Network, url: string, attempt: nat, limit: nat): (n: nat)
    ensures n <= limit
    ensures forall hop :: 0 <= hop < limit ==> (hop < n <==> Reaches(pol, net, url, attempt, hop))
  {
    if limit == 0 then 0
    else
      var n := Dialled(pol, net, url, attempt, limit - 1);
      if Reaches(pol, net, url, attempt, limit - 1) then
        (if n < limit - 1 then assert Reaches(pol, net, url, attempt, n); limit else limit)
      else n
  }

  ghost function Ending(pol: Policy, net: Network, url: string, maxBytes: nat, hops: nat, attempt: nat): Outcome {
    var n := Dialled(pol, net, url, attempt, hops + 1);
    if n == 0 then Refused else Verdict(net.reply(attempt, n - 1), maxBytes)
  }

  // ---- Safety ---------------------------------------------------------------

  /** An exchange that may happen: an allowlisted host, dialled at an address of the answer
      given in that same hop with every address of it vetted, and credentials for the
      initial host only. */
  ghost predicate Safe(pol: Policy, net: Network, initial: Option<string>, x: Exchange) {
    && x.host in pol.allowed && !pol.ipLiteral(x.host)
    && x.address in net.resolve(x.attempt, x.hop) && Vetted(pol, net.resolve(x.attempt, x.hop))
    && (x.authorized ==> initial == Some(x.host))
  }

  ghost predicate AllSafe(pol: Policy, net: Network, initial: Option<string>, trace: seq<Exchange>) {
    forall i :: 0 <= i < |trace| ==> Safe(pol, net, initial, trace[i])
  }

  /** The URL of an exchange is http or https, and https where the policy asks for it. */
  ghost predicate SchemeOk(pol: Policy, url: string) {
    pol.parse(url).scheme == "https" || (pol.parse(url).scheme == "http" && !pol.httpsOnly)
  }

  /** The exchange of one hop: the host its URL names, the first address resolved for it, and
      the credentials exactly when that host is the initial one. */
  ghost predicate Faithful(pol: Policy, net: Network, url: string, credentials: bool, x: Exchange) {
    && pol.parse(UrlAt(pol, net, url, x.attempt, x.hop)).host == Some(x.host)
    && SchemeOk(pol, UrlAt(pol, net, url, x.attempt, x.hop))
    && net.resolve(x.attempt, x.hop) != [] && x.address == net.resolve(x.attempt, x.hop)[0]
    && (x.authorized <==> credentials && pol.parse(url).host == Some(x.host))
  }

  /** One attempt: exactly the hops it reaches are dialled, in order, each exchange is safe
      and goes where its URL says, and the last answer decides the outcome. */
  method FetchOnce(pol: Policy, net: Network, url: string, credentials: bool, maxBytes: nat, hops: nat, attempt: nat)
    returns (r: Outcome, trace: seq<Exchange>)
    ensures AllSafe(pol, net, pol.parse(url).host, trace)
    ensures |trace| == Dialled(pol, net, url, attempt, hops + 1)
    ensures forall i :: 0 <= i < |trace| ==>
              trace[i].attempt == attempt && trace[i].hop == i && Faithful(pol, net, url, credentials, trace[i])
    ensures r == Ending(pol, net, url, maxBytes, hops, attempt)
    ensures r.Fetched? ==> |r.body| <= maxBytes
    ensures var last := if trace == [] then Redirect("") else net.reply(attempt, |trace| - 1);
            && (r.Trouble? <==> last.Broken? || last.Failed?)
            && (r.Fetched? <==> last.Body? && (last.announced.None? || last.announced.value <= maxBytes) &&
                                |Total(last.chunks)| <= maxBytes)
            && (r.TooLarge? <==> last.Body? && !r.Fetched?)
            && (r.Fetched? ==> r.body == Total(last.chunks))
  {
    hide Admitted, Vetted, Total, Reaches, Faithful, Safe, Dialled, UrlAt;
    trace := [];
    var initial := pol.parse(url).host;
    var current := url;
    StartsAt(pol, net, url, attempt);
    for hop := 0 to hops + 1
      invariant |trace| == hop && AllSafe(pol, net, initial, trace)
      invariant forall i :: 0 <= i < |trace| ==>
                  trace[i].attempt == attempt && trace[i].hop == i && Faithful(pol, net, url, credentials, trace[i])
      invariant current == UrlAt(pol, net, url, attempt, hop)
      invariant hop > 0 ==> Reaches(pol, net, url, attempt, hop - 1)
      invariant hop > 0 ==> net.reply(attempt, hop - 1).Redirect? && net.reply(attempt, hop - 1).location != ""
    {
      ReachesNext(pol, net, url, attempt, hop);
      if !Dialable(pol, net.resolve(attempt, hop), current) { StopsAt(pol, net, url, attempt, hop, hops + 1); }
      if !Admitted(pol, current) || !pol.parse(current).portValid { return Refused, trace; }
      var pinned := ResolveAndPin(pol, net.resolve(attempt, hop));
      if pinned.None? { return Refused, trace; }
      var host := HostOf(pol, current);
      var x := Exchange(attempt, hop, host, pinned.value, credentials && initial == Some(host));
      MayHappen(pol, net, url, credentials, x);
      trace := trace + [x];
      var reply := net.reply(attempt, hop);
      ReachesNext(pol, net, url, attempt, hop + 1);
      if !reply.Redirect? || reply.location == "" { StopsAt(pol, net, url, attempt, hop + 1, hops + 1); }
      match reply {
        case Broken => return Trouble, trace;
        case Redirect(location) =>
          if location == "" { return Refused, trace; }
          current := pol.join(current, location);
        case Failed(_) => return Trouble, trace;
        case Body(announced, chunks) =>
          if announced.Some? && announced.value > maxBytes { return TooLarge, trace; }
          var body := ReadBody(chunks, maxBytes);
          if body.None? { return TooLarge, trace; }
          return Fetched(body.value), trace;
      }
    }
    StopsAt(pol, net, url, attempt, hops + 1, hops + 1);
    return Refused, trace;
  }

  lemma StartsAt(pol: Policy, net: Network, url: string, attempt: nat)
    ensures UrlAt(pol, net, url, attempt, 0) == url
  {
  }

  lemma ReachesNext(pol: Policy, net: Network, url: string, attempt: nat, hop: nat)
    ensures Reaches(pol, net, url, attempt, hop) <==>
            && Dialable(pol, net.resolve(attempt, hop), UrlAt(pol, net, url, attempt, hop))
            && (hop > 0 ==> Reaches(pol, net, url, attempt, hop - 1) &&
                            net.reply(attempt, hop - 1).Redirect? && net.reply(attempt, hop - 1).location != "")
    ensures hop > 0 && net.reply(attempt, hop - 1).Redirect? ==>
              UrlAt(pol, net, url, attempt, hop) ==
              pol.join(UrlAt(pol, net, url, attempt, hop - 1), net.reply(attempt, hop - 1).location)
  {
    hide Dialable;
  }

  /** Dialling what passed the checks is safe. */
  lemma MayHappen(pol: Policy, net: Network, url: string, credentials: bool, x: Exchange)
    requires var current := UrlAt(pol, net, url, x.attempt, x.hop);
             && Dialable(pol, net.resolve(x.attempt, x.hop), current) && x.host == HostOf(pol, current)
    requires x.address == net.resolve(x.attempt, x.hop)[0]
    requires x.authorized == (credentials && pol.parse(url).host == Some(x.host))
    ensures Safe(pol, net, pol.parse(url).host, x) && Faithful(pol, net, url, credentials, x)
  {
    hide UrlAt, Vetted;
  }

  /** The last hop reached settles how many were dialled. */
  lemma StopsAt(pol: Policy, net: Network, url: string, attempt: nat, hop: nat, limit: nat)
    requires hop <= limit
    requires hop > 0 ==> Reaches(pol, net, url, attempt, hop - 1)
    requires hop < limit ==> !Reaches(pol, net, url, attempt, hop)
    ensures Dialled(pol, net, url, attempt, limit) == hop
  {
    hide Reaches, Dialled;
    var n := Dialled(pol, net, url, attempt, limit);
    if hop > 0 { assert hop - 1 < n; }
    if hop < limit { assert !(hop < n); }
  }

  /** The attempt that settles a fetch: everything before it failed in a way that is retried. */
  ghost predicate Settles(pol: Policy, net: Network, url: string, maxBytes: nat, hops: nat, maxRetries: int, attempt: nat) {
    && attempt <= maxRetries
    && (forall a :: 0 <= a < attempt ==> Ending(pol, net, url, maxBytes, hops, a).Trouble? && net.retried(a))
  }

  /** All attempts together: every exchange is safe, the exchanges are bounded by attempts
      times hops whatever the network answers, and a body is returned exactly when some attempt
      within the retries fetches it and all before it failed in a way that is retried. */
  method FetchUrl(pol: Policy, net: Network, url: string, credentials: bool, maxBytes: nat, hops: nat, maxRetries: int)
    returns (body: Option<seq<int>>, trace: seq<Exchange>)
    ensures AllSafe(pol, net, pol.parse(url).host, trace)
    ensures body.Some? ==> |body.value| <= maxBytes
    ensures |trace| <= (if maxRetries < 0 then 0 else (maxRetries + 1) * (hops + 1))
    ensures !Admitted(pol, url) ==> trace == []
    ensures forall i :: 0 <= i < |trace| ==> trace[i].attempt <= maxRetries && trace[i].hop <= hops &&
                                             Faithful(pol, net, url, credentials, trace[i])
    ensures forall b :: body == Some(b) <==>
              Admitted(pol, url) &&
              exists a :: Settles(pol, net, url, maxBytes, hops, maxRetries, a) &&
                          Ending(pol, net, url, maxBytes, hops, a) == Fetched(b)
  {
    hide Admitted, Ending, Dialled, Faithful, Safe;
    trace := [];
    body := None;
    if !Admitted(pol, url) { return; }
    var attempt: nat := 0;
    while attempt <= maxRetries
      invariant attempt <= maxRetries + 1 || attempt == 0
      invariant |trace| <= attempt * (hops + 1)
      invariant AllSafe(pol, net, pol.parse(url).host, trace)
      invariant forall i :: 0 <= i < |trace| ==> trace[i].attempt <= maxRetries && trace[i].hop <= hops &&
                                                 Faithful(pol, net, url, credentials, trace[i])
      invariant forall a :: 0 <= a < attempt ==> Ending(pol, net, url, maxBytes, hops, a).Trouble? && net.retried(a)
    {
      var r, more := FetchOnce(pol, net, url, credentials, maxBytes, hops, attempt);
      trace := trace + more;
      Bound(attempt, maxRetries, hops);
      assert Settles(pol, net, url, maxBytes, hops, maxRetries, attempt);
      if r.Fetched? { return Some(r.body), trace; }
      if !r.Trouble? || !net.retried(attempt) { return None, trace; }
      attempt := attempt + 1;
    }
  }

  lemma Bound(attempt: nat, maxRetries: int, hops: nat)
    requires attempt <= maxRetries
    ensures (attempt + 1) * (hops + 1) == attempt * (hops + 1) + (hops + 1)
    ensures (attempt + 1) * (hops + 1) <= (maxRetries + 1) * (hops + 1)
  {
  }

  // ---- What the checks say --------------------------------------------------

  lemma DialableMeans(pol: Policy, addresses: seq<string>, url: string)
    ensures Dialable(pol, addresses, url) <==>
              && pol.parse(url).host.Some? && pol.parse(url).host.value in pol.allowed
              && !pol.ipLiteral(pol.parse(url).host.value) && pol.parse(url).portValid
              && (pol.parse(url).scheme == "https" || (pol.parse(url).scheme == "http" && !pol.httpsOnly))
              && addresses != [] && forall i :: 0 <= i < |addresses| ==> pol.routable(addresses[i]) == Some(true)
  {
  }

  /** Chunks are put together in order. */
  lemma {:induction false} TotalJoins(a: seq<seq<int>>, b: seq<seq<int>>)
    ensures Total(a + b) == Total(a) + Total(b)
    ensures forall c :: Total([c]) == c
  {
    forall c ensures Total([c]) == c { assert [c][..0] == [] && Total([]) == []; }
    if b == [] {
      assert a + b == a;
    } else {
      TotalJoins(a, b[..|b|-1]);
      assert (a + b)[..|a + b|-1] == a + b[..|b|-1];
    }
  }
}
