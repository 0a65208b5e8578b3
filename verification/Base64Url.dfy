/** Unpadded base64url, by way of the padded alphabet of section 5 of RFC 4648 and a decoder
    that skips foreign characters, as Python's does. */
module Base64Url {
  import opened Options

  type Byte = n: nat | n < 256

  // ---- The alphabet ---------------------------------------------------------

  function Symbol(v: nat): char
    requires v < 64
  {
    if v < 26 then 'A' + v as char
    else if v < 52 then 'a' + (v - 26) as char
    else if v < 62 then '0' + (v - 52) as char
    else if v == 62 then '-' else '_'
  }

  /** The value of a character; plus and slash keep their meaning from the other alphabet. */
  function Sextet(c: char): (v: Option<nat>)
    ensures v.Some? ==> v.value < 64
  {
    if 'A' <= c <= 'Z' then Some((c as int - 'A' as int) as nat)
    else if 'a' <= c <= 'z' then Some((c as int - 'a' as int + 26) as nat)
    else if '0' <= c <= '9' then Some((c as int - '0' as int + 52) as nat)
    else if c == '-' || c == '+' then Some(62)
    else if c == '_' || c == '/' then Some(63)
    else None
  }

  lemma SymbolValue(v: nat)
    requires v < 64
    ensures Sextet(Symbol(v)) == Some(v)
    ensures Symbol(v) != '=' && Symbol(v) != '.' && Symbol(v) as int < 128
  {
    var c := Symbol(v);
    if v < 26 {
      assert c as int == 'A' as int + v;
    } else if v < 52 {
      assert c as int == 'a' as int + (v - 26);
    } else if v < 62 {
      assert c as int == '0' as int + (v - 52);
    }
  }

  /** Table 2 of RFC 4648, in the order of the values. */
  const UPPER: string := "ABCDEFGHIJKLMNOPQRSTUVWXYZ"
  const LOWER: string := "abcdefghijklmnopqrstuvwxyz"
  const OTHERS: string := "0123456789-_"
  const ALPHABET: string := UPPER + LOWER + OTHERS

  lemma SymbolIsListed(v: nat)
    requires v < 64
    ensures |ALPHABET| == 64 && Symbol(v) == ALPHABET[v]
  {
    hide Symbol;
    TableSize();
    if v < 26 {
      UpperListed(v);
    } else if v < 52 {
      LowerListed(v - 26);
    } else {
      OthersListed(v - 52);
    }
  }

  lemma TableSize()
    ensures |UPPER| == 26 && |LOWER| == 26 && |OTHERS| == 12
  {
  }

  lemma UpperListed(v: nat)
    requires v < 26
    ensures |UPPER| == 26 && UPPER[v] == Symbol(v)
  {
    assert UPPER[v] as int == 'A' as int + v;
  }

  lemma LowerListed(v: nat)
    requires v < 26
    ensures |LOWER| == 26 && LOWER[v] == Symbol(v + 26)
  {
    assert LOWER[v] as int == 'a' as int + v;
  }

  lemma OthersListed(v: nat)
    requires v < 12
    ensures |OTHERS| == 12 && OTHERS[v] == Symbol(v + 52)
  {
    if v < 10 { assert OTHERS[v] as int == '0' as int + v; }
  }

  /** Reading a character is looking it up, with plus for minus and slash for underscore. */
  lemma SextetIsLookup(c: char)
    ensures |ALPHABET| == 64
    ensures Sextet(c).Some? <==> c == '+' || c == '/' || c in ALPHABET
    ensures Sextet(c).Some? ==>
              ALPHABET[Sextet(c).value] == if c == '+' then '-' else if c == '/' then '_' else c
  {
    SymbolIsListed(0);
    if Sextet(c).Some? {
      var v := Sextet(c).value;
      SymbolIsListed(v);
      SymbolReads(c);
    }
    if c in ALPHABET {
      var v :| 0 <= v < |ALPHABET| && ALPHABET[v] == c;
      SymbolIsListed(v);
      SymbolValue(v);
    }
  }

  lemma SymbolReads(c: char)
    requires Sextet(c).Some?
    ensures Symbol(Sextet(c).value) == if c == '+' then '-' else if c == '/' then '_' else c
  {
    var v := Sextet(c).value;
    if 'A' <= c <= 'Z' {
      assert Symbol(v) as int == c as int;
    } else if 'a' <= c <= 'z' {
      assert Symbol(v) as int == c as int;
    } else if '0' <= c <= '9' {
      assert Symbol(v) as int == c as int;
    }
  }

  // ---- Encoding -------------------------------------------------------------

  function Quad(a: Byte, b: Byte, c: Byte): string {
    [Symbol(a / 4), Symbol((a % 4) * 16 + b / 16), Symbol((b % 16) * 4 + c / 64), Symbol(c % 64)]
  }

  function EncodePadded(data: seq<Byte>): string {
    if |data| == 0 then ""
    else if |data| == 1 then [Symbol(data[0] / 4), Symbol((data[0] % 4) * 16), '=', '=']
    else if |data| == 2 then
      [Symbol(data[0] / 4), Symbol((data[0] % 4) * 16 + data[1] / 16), Symbol((data[1] % 16) * 4), '=']
    else Quad(data[0], data[1], data[2]) + EncodePadded(data[3..])
  }

  /** `rstrip(b"=")`. */
  function StripPad(s: string): string {
    if s != "" && s[|s|-1] == '=' then StripPad(s[..|s|-1]) else s
  }

  function Encode(data: seq<Byte>): string {
    StripPad(EncodePadded(data))
  }

  predicate Clean(s: string) {
    forall i :: 0 <= i < |s| ==> s[i] != '=' && s[i] != '.' && s[i] as int < 128
  }

  lemma {:induction false} StripPadAfter(a: string, r: string)
    requires Clean(a)
    ensures StripPad(a + r) == a + StripPad(r)
  {
    if r == "" {
      assert a + r == a;
    } else if r[|r|-1] == '=' {
      StripPadAfter(a, r[..|r|-1]);
      assert (a + r)[..|a + r|-1] == a + r[..|r|-1];
    }
  }

  lemma QuadClean(a: Byte, b: Byte, c: Byte)
    ensures Clean(Quad(a, b, c))
  {
    SymbolValue(a / 4);
    SymbolValue((a % 4) * 16 + b / 16);
    SymbolValue((b % 16) * 4 + c / 64);
    SymbolValue(c % 64);
  }

  /** Encoding block by block: the stripped form of each short tail, and of a longer text its
      first four characters and the encoding of the rest. */
  lemma EncodeUnfold(data: seq<Byte>)
    ensures |data| == 0 ==> Encode(data) == ""
    ensures |data| == 1 ==> Encode(data) == [Symbol(data[0] / 4), Symbol((data[0] % 4) * 16)]
    ensures |data| == 2 ==>
              Encode(data) == [Symbol(data[0] / 4), Symbol((data[0] % 4) * 16 + data[1] / 16), Symbol((data[1] % 16) * 4)]
    ensures |data| >= 3 ==> Encode(data) == Quad(data[0], data[1], data[2]) + Encode(data[3..])
  {
    if |data| == 1 {
      var a := [Symbol(data[0] / 4), Symbol((data[0] % 4) * 16)];
      SymbolValue(data[0] / 4);
      SymbolValue((data[0] % 4) * 16);
      TwoPads();
      StripPadAfter(a, "==");
      assert EncodePadded(data) == a + "==";
    } else if |data| == 2 {
      var a := [Symbol(data[0] / 4), Symbol((data[0] % 4) * 16 + data[1] / 16), Symbol((data[1] % 16) * 4)];
      SymbolValue(data[0] / 4);
      SymbolValue((data[0] % 4) * 16 + data[1] / 16);
      SymbolValue((data[1] % 16) * 4);
      TwoPads();
      StripPadAfter(a, "=");
      assert EncodePadded(data) == a + "=";
    } else if |data| >= 3 {
      QuadClean(data[0], data[1], data[2]);
      StripPadAfter(Quad(data[0], data[1], data[2]), EncodePadded(data[3..]));
    }
  }

  lemma TwoPads()
    ensures StripPad("=") == "" && StripPad("==") == ""
  {
    assert "="[..0] == "" && "=="[..1] == "=";
  }

  /** No encoding contains a dot, a padding sign or anything outside ASCII. */
  lemma {:induction false} EncodeClean(data: seq<Byte>)
    ensures Clean(Encode(data))
  {
    hide Encode, Symbol, Quad;
    EncodeUnfold(data);
    if |data| == 1 {
      SymbolValue(data[0] / 4);
      SymbolValue((data[0] % 4) * 16);
    } else if |data| == 2 {
      SymbolValue(data[0] / 4);
      SymbolValue((data[0] % 4) * 16 + data[1] / 16);
      SymbolValue((data[1] % 16) * 4);
    } else if |data| >= 3 {
      QuadClean(data[0], data[1], data[2]);
      EncodeClean(data[3..]);
    }
  }

  predicate InTable(s: string) {
    forall i :: 0 <= i < |s| ==> s[i] in ALPHABET
  }

  /** Every encoding is written in the 64 characters of the table. */
  lemma {:induction false} EncodeInTable(data: seq<Byte>)
    ensures InTable(Encode(data))
  {
    hide Encode, Symbol, Quad, ALPHABET;
    EncodeUnfold(data);
    if |data| == 1 {
      SymbolIsListed(data[0] / 4);
      SymbolIsListed((data[0] % 4) * 16);
    } else if |data| == 2 {
      SymbolIsListed(data[0] / 4);
      SymbolIsListed((data[0] % 4) * 16 + data[1] / 16);
      SymbolIsListed((data[1] % 16) * 4);
    } else if |data| >= 3 {
      QuadListed(data[0], data[1], data[2]);
      EncodeInTable(data[3..]);
      JoinInTable(Quad(data[0], data[1], data[2]), Encode(data[3..]));
    }
  }

  lemma JoinInTable(a: string, b: string)
    requires InTable(a) && InTable(b)
    ensures InTable(a + b)
  {
    hide ALPHABET;
  }

  lemma QuadListed(a: Byte, b: Byte, c: Byte)
    ensures InTable(Quad(a, b, c))
  {
    hide Symbol, ALPHABET;
    SymbolIsListed(a / 4);
    SymbolIsListed((a % 4) * 16 + b / 16);
    SymbolIsListed((b % 16) * 4 + c / 64);
    SymbolIsListed(c % 64);
  }

  /** The characters at these positions of the table. */
  function Listed(vs: seq<nat>): (s: string)
    requires |ALPHABET| == 64 && forall i :: 0 <= i < |vs| ==> vs[i] < 64
    ensures |s| == |vs| && forall i :: 0 <= i < |vs| ==> s[i] == ALPHABET[vs[i]]
  {
    if vs == [] then "" else Listed(vs[..|vs|-1]) + [ALPHABET[vs[|vs|-1]]]
  }

  /** The number written by digits of base 64, and by bytes. */
  function Base64Number(vs: seq<nat>): nat {
    if vs == [] then 0 else Base64Number(vs[..|vs|-1]) * 64 + vs[|vs|-1]
  }

  function ByteNumber(data: seq<Byte>): nat {
    if data == [] then 0 else ByteNumber(data[..|data|-1]) * 256 + data[|data|-1] as int
  }

  /** Section 4 of RFC 4648: every three bytes are the number that four characters write; one or
      two bytes at the end are shifted to the left into two or three characters. */
  lemma EncodeIsStandard(data: seq<Byte>) returns (vs: seq<nat>)
    requires data != []
    ensures |ALPHABET| == 64 && (forall i :: 0 <= i < |vs| ==> vs[i] < 64)
    ensures |data| == 1 ==> |vs| == 2 && Encode(data) == Listed(vs) && Base64Number(vs) == ByteNumber(data) * 16
    ensures |data| == 2 ==> |vs| == 3 && Encode(data) == Listed(vs) && Base64Number(vs) == ByteNumber(data) * 4
    ensures |data| >= 3 ==>
              |vs| == 4 && Encode(data) == Listed(vs) + Encode(data[3..]) && Base64Number(vs) == ByteNumber(data[..3])
  {
    hide Encode, Symbol, ALPHABET, Quad;
    vs := BlockOf(data);
    AllListed(vs);
    EncodeUnfold(data);
    if |data| >= 3 { QuadIs(data[0], data[1], data[2]); }
  }

  lemma QuadIs(a: Byte, b: Byte, c: Byte)
    ensures Quad(a, b, c) ==
            [Symbol(a / 4), Symbol((a % 4) * 16 + b / 16), Symbol((b % 16) * 4 + c / 64), Symbol(c % 64)]
  {
  }

  /** The digits of the first block, and what they add up to. */
  lemma BlockOf(data: seq<Byte>) returns (vs: seq<nat>)
    requires data != []
    ensures forall i :: 0 <= i < |vs| ==> vs[i] < 64
    ensures |data| == 1 ==> vs == [data[0] / 4, (data[0] % 4) * 16] && Base64Number(vs) == ByteNumber(data) * 16
    ensures |data| == 2 ==>
              vs == [data[0] / 4, (data[0] % 4) * 16 + data[1] / 16, (data[1] % 16) * 4] &&
              Base64Number(vs) == ByteNumber(data) * 4
    ensures |data| >= 3 ==>
              vs == [data[0] / 4, (data[0] % 4) * 16 + data[1] / 16, (data[1] % 16) * 4 + data[2] / 64, data[2] % 64] &&
              Base64Number(vs) == ByteNumber(data[..3])
  {
    hide Base64Number, ByteNumber;
    if |data| == 1 {
      vs := [data[0] / 4, (data[0] % 4) * 16];
      BytesOf(data);
    } else if |data| == 2 {
      vs := [data[0] / 4, (data[0] % 4) * 16 + data[1] / 16, (data[1] % 16) * 4];
      BytesOf(data);
    } else {
      vs := [data[0] / 4, (data[0] % 4) * 16 + data[1] / 16, (data[1] % 16) * 4 + data[2] / 64, data[2] % 64];
      BytesOf(data[..3]);
    }
    NumberOf(vs);
  }

  lemma AllListed(vs: seq<nat>)
    requires forall i :: 0 <= i < |vs| ==> vs[i] < 64
    ensures |ALPHABET| == 64 && forall i :: 0 <= i < |vs| ==> Symbol(vs[i]) == Listed(vs)[i]
  {
    hide Symbol, ALPHABET;
    SymbolIsListed(0);
    forall i | 0 <= i < |vs| ensures Symbol(vs[i]) == Listed(vs)[i] { SymbolIsListed(vs[i]); }
  }

  lemma NumberOf(vs: seq<nat>)
    ensures |vs| == 2 ==> Base64Number(vs) == vs[0] * 64 + vs[1]
    ensures |vs| == 3 ==> Base64Number(vs) == (vs[0] * 64 + vs[1]) * 64 + vs[2]
    ensures |vs| == 4 ==> Base64Number(vs) == ((vs[0] * 64 + vs[1]) * 64 + vs[2]) * 64 + vs[3]
  {
    assert Base64Number([]) == 0;
    if |vs| >= 1 { assert vs[..1][..0] == [] && Base64Number(vs[..1]) == vs[0]; }
    if |vs| >= 2 { assert vs[..2][..1] == vs[..1] && Base64Number(vs[..2]) == vs[0] * 64 + vs[1]; }
    if |vs| >= 3 { assert vs[..3][..2] == vs[..2]; }
    if |vs| == 2 { assert vs[..2] == vs; }
    if |vs| == 3 { assert vs[..3] == vs; }
    if |vs| == 4 { assert vs[..4] == vs && Base64Number(vs[..3]) == (vs[0] * 64 + vs[1]) * 64 + vs[2]; }
  }

  lemma BytesOf(data: seq<Byte>)
    ensures |data| == 1 ==> ByteNumber(data) == data[0]
    ensures |data| == 2 ==> ByteNumber(data) == data[0] as int * 256 + data[1] as int
    ensures |data| == 3 ==> ByteNumber(data) == (data[0] as int * 256 + data[1] as int) * 256 + data[2] as int
  {
    assert ByteNumber([]) == 0;
    if |data| >= 1 { assert data[..1][..0] == [] && ByteNumber(data[..1]) == data[0]; }
    if |data| >= 2 { assert data[..2][..1] == data[..1] && ByteNumber(data[..2]) == data[0] as int * 256 + data[1] as int; }
    if |data| == 1 { assert data[..1] == data; }
    if |data| == 2 { assert data[..2] == data; }
  }

  // ---- Decoding -------------------------------------------------------------

  /** The bits left over after so many characters of a group of four. */
  predicate Leftover(quad: nat, left: nat) {
    quad < 4 && left < (if quad == 0 then 1 else if quad == 1 then 64 else if quad == 2 then 16 else 4)
  }

  function More(b: Byte, rest: Option<seq<Byte>>): Option<seq<Byte>> {
    if rest.Some? then Some([b] + rest.value) else None
  }

  /** Characters outside the alphabet are skipped; enough padding after two or three
      characters of a group ends the text; a group left open is an error. */
  function Scan(s: string, quad: nat, left: nat, pads: nat): Option<seq<Byte>>
    requires Leftover(quad, left)
    decreases |s|
  {
    if s == "" then (if quad == 0 then Some([]) else None)
    else if s[0] == '=' then
      if quad >= 2 && quad + pads + 1 >= 4 then Some([])
      else Scan(s[1..], quad, left, if quad >= 2 then pads + 1 else pads)
    else
      match Sextet(s[0])
      case None => Scan(s[1..], quad, left, pads)
      case Some(v) =>
        if quad == 0 then Scan(s[1..], 1, v, 0)
        else if quad == 1 then More(left * 4 + v / 16, Scan(s[1..], 2, v % 16, 0))
        else if quad == 2 then More(left * 16 + v / 4, Scan(s[1..], 3, v % 4, 0))
        else More(left * 64 + v, Scan(s[1..], 0, 0, 0))
  }

  function Pads(n: nat): string
    requires n < 4
  {
    if n == 0 then "" else if n == 1 then "=" else if n == 2 then "==" else "==="
  }

  /** The text with its padding restored. */
  function Padded(s: string): string {
    var n := 4 - |s| % 4;
    if n != 4 then s + Pads(n) else s
  }

  predicate Ascii(s: string) {
    forall i :: 0 <= i < |s| ==> s[i] as int < 128
  }

  function Decode(s: string): Option<seq<Byte>> {
    if !Ascii(s) then None else Scan(Padded(s), 0, 0, 0)
  }

  /** One character of the alphabet, taken in. */
  lemma ScanSymbol(v: nat, rest: string, quad: nat, left: nat, pads: nat)
    requires v < 64 && Leftover(quad, left)
    ensures Scan([Symbol(v)] + rest, quad, left, pads) ==
            if quad == 0 then Scan(rest, 1, v, 0)
            else if quad == 1 then More(left * 4 + v / 16, Scan(rest, 2, v % 16, 0))
            else if quad == 2 then More(left * 16 + v / 4, Scan(rest, 3, v % 4, 0))
            else More(left * 64 + v, Scan(rest, 0, 0, 0))
  {
    hide Symbol, Sextet;
    SymbolValue(v);
    var s := [Symbol(v)] + rest;
    assert s[0] == Symbol(v) && s[1..] == rest;
  }

  lemma ScanQuad(a: Byte, b: Byte, c: Byte, rest: string)
    ensures Scan(Quad(a, b, c) + rest, 0, 0, 0) == More(a, More(b, More(c, Scan(rest, 0, 0, 0))))
  {
    hide Symbol, Scan;
    var p, q, r, t := a / 4, (a % 4) * 16 + b / 16, (b % 16) * 4 + c / 64, c % 64;
    var s1 := [Symbol(t)] + rest;
    var s2 := [Symbol(r)] + s1;
    var s3 := [Symbol(q)] + s2;
    assert Quad(a, b, c) + rest == [Symbol(p)] + s3;
    ScanSymbol(p, s3, 0, 0, 0);
    ScanSymbol(q, s2, 1, p, 0);
    ScanSymbol(r, s1, 2, q % 16, 0);
    ScanSymbol(t, rest, 3, r % 4, 0);
    assert p * 4 + q / 16 == a && (q % 16) * 16 + r / 4 == b && (r % 4) * 64 + t == c;
  }

  lemma PaddedAfter(q: string, s: string)
    requires |q| == 4
    ensures Padded(q + s) == q + Padded(s)
  {
    assert |q + s| % 4 == |s| % 4;
    var n := 4 - |s| % 4;
    if n != 4 { assert (q + s) + Pads(n) == q + (s + Pads(n)); }
  }

  lemma ScanPads(quad: nat, left: nat)
    requires 2 <= quad < 4 && Leftover(quad, left)
    ensures Scan(Pads(4 - quad), quad, left, 0) == Some([])
  {
    if quad == 2 { assert "=="[1..] == "="; }
  }

  lemma TailRoundTrip(data: seq<Byte>)
    requires |data| == 1 || |data| == 2
    ensures Scan(Padded(Encode(data)), 0, 0, 0) == Some(data)
  {
    hide Symbol, Scan, Encode;
    EncodeUnfold(data);
    var p := data[0] / 4;
    if |data| == 1 {
      var q := (data[0] % 4) * 16;
      assert Padded(Encode(data)) == [Symbol(p)] + ([Symbol(q)] + Pads(2));
      ScanSymbol(p, [Symbol(q)] + Pads(2), 0, 0, 0);
      ScanSymbol(q, Pads(2), 1, p, 0);
      ScanPads(2, q % 16);
      assert p * 4 + q / 16 == data[0];
      assert [data[0]] + [] == data;
    } else {
      var q := (data[0] % 4) * 16 + data[1] / 16;
      var r := (data[1] % 16) * 4;
      assert Padded(Encode(data)) == [Symbol(p)] + ([Symbol(q)] + ([Symbol(r)] + Pads(1)));
      ScanSymbol(p, [Symbol(q)] + ([Symbol(r)] + Pads(1)), 0, 0, 0);
      ScanSymbol(q, [Symbol(r)] + Pads(1), 1, p, 0);
      ScanSymbol(r, Pads(1), 2, q % 16, 0);
      ScanPads(3, r % 4);
      assert p * 4 + q / 16 == data[0] && (q % 16) * 16 + r / 4 == data[1];
      assert [data[0]] + ([data[1]] + []) == data;
    }
  }

  lemma {:induction false} ScanRoundTrip(data: seq<Byte>)
    ensures Scan(Padded(Encode(data)), 0, 0, 0) == Some(data)
  {
    hide Symbol, Encode, Quad, Padded;
    EncodeUnfold(data);
    if |data| == 0 {
      NoPadding();
    } else if |data| <= 2 {
      TailRoundTrip(data);
    } else {
      FourLong(data[0], data[1], data[2]);
      PaddedAfter(Quad(data[0], data[1], data[2]), Encode(data[3..]));
      ScanQuad(data[0], data[1], data[2], Padded(Encode(data[3..])));
      ScanRoundTrip(data[3..]);
      assert [data[0]] + ([data[1]] + ([data[2]] + data[3..])) == data;
    }
  }

  lemma NoPadding()
    ensures Padded("") == ""
  {
  }

  lemma FourLong(a: Byte, b: Byte, c: Byte)
    ensures |Quad(a, b, c)| == 4
  {
  }

  /** Stripping the padding and restoring it loses nothing, for every byte string. */
  lemma RoundTrip(data: seq<Byte>)
    ensures Decode(Encode(data)) == Some(data)
  {
    hide Encode, Scan;
    EncodeClean(data);
    ScanRoundTrip(data);
  }

  /** So different byte strings have different encodings. */
  lemma EncodeInjective(a: seq<Byte>, b: seq<Byte>)
    requires Encode(a) == Encode(b)
    ensures a == b
  {
    hide Encode, Decode;
    RoundTrip(a);
    RoundTrip(b);
  }

  // ---- What decodes ---------------------------------------------------------

  lemma ScanListed(c: char, rest: string, quad: nat, left: nat, pads: nat)
    requires c in ALPHABET && Leftover(quad, left)
    ensures Sextet(c).Some?
    ensures var v := Sextet(c).value;
            Scan([c] + rest, quad, left, pads) ==
            if quad == 0 then Scan(rest, 1, v, 0)
            else if quad == 1 then More(left * 4 + v / 16, Scan(rest, 2, v % 16, 0))
            else if quad == 2 then More(left * 16 + v / 4, Scan(rest, 3, v % 4, 0))
            else More(left * 64 + v, Scan(rest, 0, 0, 0))
  {
    hide Sextet, ALPHABET;
    SextetIsLookup(c);
    PadNotListed();
    var s := [c] + rest;
    assert s[0] == c && s[1..] == rest;
  }

  lemma PadNotListed()
    ensures '=' !in ALPHABET
  {
    hide Sextet, ALPHABET;
    SextetIsLookup('=');
    PadUnread();
  }

  lemma PadUnread()
    ensures Sextet('=').None?
  {
  }

  lemma FourListed(a: char, b: char, c: char, d: char, rest: string)
    requires a in ALPHABET && b in ALPHABET && c in ALPHABET && d in ALPHABET
    ensures var r := Scan([a, b, c, d] + rest, 0, 0, 0);
            var t := Scan(rest, 0, 0, 0);
            (r.Some? <==> t.Some?) && (r.Some? ==> |r.value| == |t.value| + 3)
  {
    hide Scan, Sextet, ALPHABET;
    var s3 := [d] + rest;
    var s2 := [c] + s3;
    var s1 := [b] + s2;
    assert [a, b, c, d] + rest == [a] + s1;
    ScanListed(a, s1, 0, 0, 0);
    var p := Sextet(a).value;
    ScanListed(b, s2, 1, p, 0);
    var q := Sextet(b).value;
    ScanListed(c, s3, 2, q % 16, 0);
    var u := Sextet(c).value;
    ScanListed(d, rest, 3, u % 4, 0);
  }

  lemma TailOne(a: char)
    requires a in ALPHABET
    ensures Scan(Padded([a]), 0, 0, 0) == None
  {
    hide Sextet, ALPHABET, Scan;
    assert Padded([a]) == [a] + "===";
    ScanListed(a, "===", 0, 0, 0);
    ScanPadsOnly(1, Sextet(a).value);
  }

  lemma TailTwo(a: char, b: char)
    requires a in ALPHABET && b in ALPHABET
    ensures var r := Scan(Padded([a, b]), 0, 0, 0); r.Some? && |r.value| == 1
  {
    hide Sextet, ALPHABET, Scan;
    assert Padded([a, b]) == [a] + ([b] + "==");
    ScanListed(a, [b] + "==", 0, 0, 0);
    ScanListed(b, "==", 1, Sextet(a).value, 0);
    ScanPadsOnly(2, Sextet(b).value % 16);
  }

  lemma TailThree(a: char, b: char, c: char)
    requires a in ALPHABET && b in ALPHABET && c in ALPHABET
    ensures var r := Scan(Padded([a, b, c]), 0, 0, 0); r.Some? && |r.value| == 2
  {
    hide Sextet, ALPHABET, Scan;
    assert Padded([a, b, c]) == [a] + ([b] + ([c] + "="));
    ScanListed(a, [b] + ([c] + "="), 0, 0, 0);
    ScanListed(b, [c] + "=", 1, Sextet(a).value, 0);
    ScanListed(c, "=", 2, Sextet(b).value % 16, 0);
    ScanPadsOnly(3, Sextet(c).value % 4);
  }

  lemma TailListed(s: string)
    requires InTable(s) && |s| < 4
    ensures var r := Scan(Padded(s), 0, 0, 0);
            (r.Some? <==> |s| != 1) && (r.Some? ==> |r.value| == |s| * 3 / 4)
  {
    hide Sextet, ALPHABET;
    if |s| == 0 {
      assert Padded(s) == "";
    } else if |s| == 1 {
      assert s == [s[0]] && s[0] in ALPHABET;
      TailOne(s[0]);
    } else if |s| == 2 {
      assert s == [s[0], s[1]] && s[0] in ALPHABET && s[1] in ALPHABET;
      TailTwo(s[0], s[1]);
    } else {
      assert s == [s[0], s[1], s[2]] && s[0] in ALPHABET && s[1] in ALPHABET && s[2] in ALPHABET;
      TailThree(s[0], s[1], s[2]);
    }
  }

  lemma ScanPadsOnly(quad: nat, left: nat)
    requires 1 <= quad && Leftover(quad, left)
    ensures quad == 1 ==> Scan("===", 1, left, 0) == None
    ensures quad == 2 ==> Scan("==", 2, left, 0) == Some([])
    ensures quad == 3 ==> Scan("=", 3, left, 0) == Some([])
  {
    assert "==="[1..] == "==" && "=="[1..] == "=" && "="[1..] == "";
  }

  /** A text in the table decodes exactly when its length is not one more than a multiple of four,
      and then to three bytes for every four characters. */
  lemma {:induction false} DecodesExactly(s: string)
    requires InTable(s)
    ensures Decode(s).Some? <==> |s| % 4 != 1
    ensures Decode(s).Some? ==> |Decode(s).value| == |s| * 3 / 4
  {
    hide Scan, ALPHABET, Padded;
    TableIsAscii(s);
    ScansExactly(s);
  }

  lemma TableIsAscii(s: string)
    requires InTable(s)
    ensures Ascii(s)
  {
    hide ALPHABET;
    forall i | 0 <= i < |s| ensures s[i] as int < 128 { SextetIsLookup(s[i]); }
  }

  lemma {:induction false} ScansExactly(s: string)
    requires InTable(s)
    ensures var r := Scan(Padded(s), 0, 0, 0);
            (r.Some? <==> |s| % 4 != 1) && (r.Some? ==> |r.value| == |s| * 3 / 4)
  {
    hide Scan, ALPHABET, Padded;
    if |s| < 4 {
      TailListed(s);
    } else {
      ScansExactly(s[4..]);
      assert s == s[..4] + s[4..] && s[..4] == [s[0], s[1], s[2], s[3]];
      PaddedAfter(s[..4], s[4..]);
      FourListed(s[0], s[1], s[2], s[3], Padded(s[4..]));
    }
  }
}
