/** The portal session envelope: a signed payload in the three-part compact form of section
    7.1 of RFC 7515, with an absolute lifetime counted from the login. */
module SessionEnvelope {
  import opened Options
  import opened Base64Url

  const ABSOLUTE_LIFETIME: int := 43200

  /** A missing or non-numeric issued-at is None. */
  datatype Payload = Payload(at: string, rt: string, exp: int, sub: string, fp: string, eiat: Option<int>)

  /** The JSON codec and the keyed digest. What does not parse to an object loads as None. */
  datatype Env = Env(dumps: Payload -> seq<Byte>, loads: seq<Byte> -> Option<Payload>, mac: string -> seq<Byte>)

  /** The header `{"alg":"HS256","typ":"SIFTENV"}` in ASCII. */
  const HEADER_JSON: seq<Byte> := [
    123, 34, 97, 108, 103, 34, 58, 34, 72, 83, 50, 53, 54, 34, 44, 34, 116, 121, 112, 34, 58, 34,
    83, 73, 70, 84, 69, 78, 86, 34, 125
  ]

  function Header(): string {
    Encode(HEADER_JSON)
  }

  // ---- Splitting at dots ----------------------------------------------------

  function Split(s: string): (parts: seq<string>)
    ensures parts != []
  {
    if s == "" then [""]
    else
      var parts := Split(s[1..]);
      if s[0] == '.' then [""] + parts else [[s[0]] + parts[0]] + parts[1..]
  }

  predicate NoDot(s: string) {
    '.' !in s
  }

  lemma {:induction false} SplitNoDot(s: string)
    requires NoDot(s)
    ensures Split(s) == [s]
  {
    if s != "" {
      assert s[0] in s && NoDot(s[1..]);
      SplitNoDot(s[1..]);
      assert [s[0]] + s[1..] == s;
    }
  }

  lemma {:induction false} SplitFirst(a: string, rest: string)
    requires NoDot(a)
    ensures Split(a + "." + rest) == [a] + Split(rest)
  {
    var s := a + "." + rest;
    if a == "" {
      assert s[1..] == rest;
    } else {
      assert a[0] in a && NoDot(a[1..]);
      SplitFirst(a[1..], rest);
      assert s[1..] == a[1..] + "." + rest;
      assert [a[0]] + a[1..] == a;
    }
  }

  lemma SplitThree(a: string, b: string, c: string)
    requires NoDot(a) && NoDot(b) && NoDot(c)
    ensures Split(a + "." + b + "." + c) == [a, b, c]
  {
    SplitFirst(a, b + "." + c);
    SplitFirst(b, c);
    SplitNoDot(c);
    assert a + "." + b + "." + c == a + "." + (b + "." + c);
  }

  function Joined(parts: seq<string>): string
    requires parts != []
  {
    if |parts| == 1 then parts[0] else parts[0] + "." + Joined(parts[1..])
  }

  /** Splitting loses nothing, and no part has a dot. */
  lemma {:induction false} SplitInverse(s: string)
    ensures Joined(Split(s)) == s
    ensures forall i :: 0 <= i < |Split(s)| ==> NoDot(Split(s)[i])
  {
    if s != "" {
      SplitInverse(s[1..]);
      var p := Split(s[1..]);
      if s[0] != '.' {
        var q := [[s[0]] + p[0]] + p[1..];
        if |p| > 1 {
          assert q[1..] == p[1..];
          assert [s[0]] + p[0] + "." + Joined(p[1..]) == [s[0]] + (p[0] + "." + Joined(p[1..]));
        }
        assert forall i :: 1 <= i < |q| ==> q[i] == p[i];
      } else {
        assert ([""] + p)[1..] == p;
        assert "" + "." + s[1..] == s;
      }
    }
  }

  // ---- Generating and verifying ---------------------------------------------

  function Signed(env: Env, body: string): string {
    Header() + "." + body + "." + Encode(env.mac(Header() + "." + body))
  }

  function Sealed(env: Env, p: Payload): string {
    Signed(env, Encode(env.dumps(p)))
  }

  function Generate(env: Env, at: string, rt: string, exp: int, sub: string, fp: string,
                    issuedAt: Option<int>, now: int): string {
    Sealed(env, Payload(at, rt, exp, sub, fp, Some(if issuedAt.Some? then issuedAt.value else now)))
  }

  /** The checks after the signature. */
  predicate Acceptable(p: Payload, now: int) {
    p.at != "" && p.sub != "" && p.eiat.Some? && now - p.eiat.value <= ABSOLUTE_LIFETIME
  }

  function Verify(env: Env, token: string, now: int): Option<Payload> {
    var parts := Split(token);
    if |parts| != 3 then None
    else if parts[0] != Header() then None
    else if Encode(env.mac(parts[0] + "." + parts[1])) != parts[2] then None
    else
      match Decode(parts[1])
      case None => None
      case Some(data) =>
        match env.loads(data)
        case None => None
        case Some(p) => if Acceptable(p, now) then Some(p) else None
  }

  lemma CleanNoDot(s: string)
    requires Clean(s)
    ensures NoDot(s)
  {
  }

  lemma HeaderNoDot()
    ensures NoDot(Header())
  {
    hide Encode;
    EncodeClean(HEADER_JSON);
    CleanNoDot(Header());
  }

  lemma SignedSplits(env: Env, body: string)
    requires NoDot(body)
    ensures Split(Signed(env, body)) == [Header(), body, Encode(env.mac(Header() + "." + body))]
  {
    hide Encode, Header, Split, Clean;
    var sig := Encode(env.mac(Header() + "." + body));
    HeaderNoDot();
    EncodeClean(env.mac(Header() + "." + body));
    CleanNoDot(sig);
    SplitThree(Header(), body, sig);
  }

  /** What is loaded is what was dumped. */
  ghost predicate Faithful(env: Env) {
    forall p :: env.loads(env.dumps(p)) == Some(p)
  }

  /** A sealed envelope splits into exactly three parts and verifies to exactly its payload,
      as long as the payload is acceptable, and to nothing otherwise. */
  lemma SealedVerifies(env: Env, p: Payload, now: int)
    requires Faithful(env)
    ensures |Split(Sealed(env, p))| == 3
    ensures Verify(env, Sealed(env, p), now) == if Acceptable(p, now) then Some(p) else None
  {
    hide Encode, Header, Split, Decode, Clean, Signed, Acceptable;
    var body := Encode(env.dumps(p));
    EncodeClean(env.dumps(p));
    CleanNoDot(body);
    SignedSplits(env, body);
    RoundTrip(env.dumps(p));
    assert env.loads(env.dumps(p)) == Some(p);
  }

  /** Conversely, whatever verifies is a signed envelope of this portal's form, carries a
      signature over its own text, and decodes to the acceptable payload returned. */
  lemma VerifiedIsSigned(env: Env, token: string, now: int, p: Payload)
    ensures Verify(env, token, now) == Some(p) <==>
            exists body :: NoDot(body) &&
                           token == Header() + "." + body + "." + Encode(env.mac(Header() + "." + body)) &&
                           p.at != "" && p.sub != "" && p.eiat.Some? && now - p.eiat.value <= 43200 &&
                           Decode(body).Some? && env.loads(Decode(body).value) == Some(p)
  {
    hide Encode, Header, Split, Decode, Signed;
    var parts := Split(token);
    if Verify(env, token, now) == Some(p) {
      SplitInverse(token);
      var body := parts[1];
      ThreeJoined(parts);
      assert NoDot(body) && Decode(body).Some?;
    }
    if body :| NoDot(body) && token == Header() + "." + body + "." + Encode(env.mac(Header() + "." + body)) &&
               p.at != "" && p.sub != "" && p.eiat.Some? && now - p.eiat.value <= 43200 &&
               Decode(body).Some? && env.loads(Decode(body).value) == Some(p) {
      SignedText(env, body);
      SignedSplits(env, body);
    }
  }

  lemma SignedText(env: Env, body: string)
    ensures Signed(env, body) == Header() + "." + body + "." + Encode(env.mac(Header() + "." + body))
  {
  }

  lemma ThreeJoined(parts: seq<string>)
    requires |parts| == 3
    ensures Joined(parts) == parts[0] + "." + parts[1] + "." + parts[2]
  {
    assert parts[1..][0] == parts[1] && parts[1..][1..] == [parts[2]];
    assert Joined([parts[2]]) == parts[2];
    assert Joined(parts[1..]) == parts[1] + "." + parts[2];
    assert parts[0] + "." + (parts[1] + "." + parts[2]) == parts[0] + "." + parts[1] + "." + parts[2];
  }

  /** The header bytes spell the header. */
  lemma HeaderSpells()
    ensures var text := "{\"alg\":\"HS256\",\"typ\":\"SIFTENV\"}";
            |HEADER_JSON| == |text| && forall i :: 0 <= i < |text| ==> HEADER_JSON[i] == text[i] as int
  {
  }
}
