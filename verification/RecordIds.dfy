/** The ids of indexed records: source prefix, sanitized file stem and record number. */
module RecordIds {

  predicate SafeChar(c: char) {
    'a' <= c <= 'z' || 'A' <= c <= 'Z' || '0' <= c <= '9' || c == '_' || c == '-'
  }

  /** Every character outside the safe set becomes an underscore. */
  function Sanitize(s: string): (r: string)
    ensures |r| == |s| && forall i :: 0 <= i < |r| ==> SafeChar(r[i])
    ensures (forall i :: 0 <= i < |s| ==> SafeChar(s[i])) ==> r == s
  {
    if s == "" then ""
    else [if SafeChar(s[0]) then s[0] else '_'] + Sanitize(s[1..])
  }

  function Digit(n: nat): char
    requires n < 10
  {
    '0' + n as char
  }

  function Decimal(n: nat): string {
    if n < 10 then [Digit(n)] else Decimal(n / 10) + [Digit(n % 10)]
  }

  function RecordId(prefix: string, safeStem: string, number: nat): string {
    prefix + "_" + safeStem + "_" + Decimal(number)
  }

  lemma {:induction false} DecimalPlain(n: nat)
    ensures '_' !in Decimal(n)
  {
    if n >= 10 { DecimalPlain(n / 10); }
  }

  lemma DigitInjective(m: nat, n: nat)
    requires m < 10 && n < 10 && Digit(m) == Digit(n)
    ensures m == n
  {
    assert Digit(m) as int == '0' as int + m && Digit(n) as int == '0' as int + n;
  }

  lemma {:induction false} DecimalInjective(m: nat, n: nat)
    requires Decimal(m) == Decimal(n)
    ensures m == n
  {
    var a, b := Decimal(m), Decimal(n);
    DecimalLast(m);
    DecimalLast(n);
    DigitInjective(m % 10, n % 10);
    if m >= 10 && n >= 10 {
      assert Decimal(m / 10) == a[..|a|-1] == Decimal(n / 10);
      DecimalInjective(m / 10, n / 10);
    } else {
      DecimalLength(m);
      DecimalLength(n);
    }
  }

  lemma DecimalLast(n: nat)
    ensures Decimal(n) != "" && Decimal(n)[|Decimal(n)|-1] == Digit(n % 10)
  {
  }

  lemma {:induction false} DecimalLength(n: nat)
    ensures |Decimal(n)| == 1 <==> n < 10
  {
    if n >= 10 { DecimalLast(n / 10); }
  }

  /** What follows the last underscore. */
  function AfterLast(s: string): string {
    if s == "" || s[|s|-1] == '_' then "" else AfterLast(s[..|s|-1]) + [s[|s|-1]]
  }

  lemma {:induction false} AfterLastOf(x: string, d: string)
    requires '_' !in d
    ensures AfterLast(x + "_" + d) == d
  {
    var s := x + "_" + d;
    if d != "" {
      var n := |d| - 1;
      assert d[n] in d && '_' !in d[..n];
      AfterLastOf(x, d[..n]);
      assert s[..|s|-1] == x + "_" + d[..n];
      assert d == d[..n] + [d[n]];
    }
  }

  /** With one source prefix, ids are equal exactly when the sanitized stems and the record
      numbers are, whatever underscores and digits the stems contain. */
  lemma RecordIdInjective(prefix: string, a: string, m: nat, b: string, n: nat)
    ensures RecordId(prefix, a, m) == RecordId(prefix, b, n) <==> a == b && m == n
  {
    if RecordId(prefix, a, m) == RecordId(prefix, b, n) {
      DecimalPlain(m);
      DecimalPlain(n);
      AfterLastOf(prefix + "_" + a, Decimal(m));
      AfterLastOf(prefix + "_" + b, Decimal(n));
      DecimalInjective(m, n);
      var s := RecordId(prefix, a, m);
      var k := |s| - |Decimal(m)| - 1;
      assert prefix + "_" + a == s[..k] == prefix + "_" + b;
      assert a == s[..k][|prefix| + 1..] == b;
    }
  }

  /** Two stems share ids exactly when they sanitize alike. */
  lemma StemsCollide(prefix: string, a: string, m: nat, b: string, n: nat)
    ensures RecordId(prefix, Sanitize(a), m) == RecordId(prefix, Sanitize(b), n) <==>
            Sanitize(a) == Sanitize(b) && m == n
  {
    RecordIdInjective(prefix, Sanitize(a), m, Sanitize(b), n);
  }

  /** Letters, digits, underscores and dashes stay; any other character becomes an underscore. */
  lemma {:induction false} SanitizeMeans(s: string, i: nat)
    requires i < |s|
    ensures Sanitize(s)[i] ==
            if 'a' <= s[i] <= 'z' || 'A' <= s[i] <= 'Z' || '0' <= s[i] <= '9' || s[i] == '_' || s[i] == '-' then s[i]
            else '_'
  {
    if i > 0 { SanitizeMeans(s[1..], i - 1); }
  }

  /** The number a text of digits writes. */
  function Value(s: string): nat
    requires forall i :: 0 <= i < |s| ==> '0' <= s[i] <= '9'
  {
    if s == "" then 0 else Value(s[..|s|-1]) * 10 + (s[|s|-1] as int - '0' as int) as nat
  }

  /** The decimal text of a number is written in digits, writes that number, and has no leading
      zero unless it is zero. */
  lemma {:induction false} DecimalReads(n: nat)
    ensures forall i :: 0 <= i < |Decimal(n)| ==> '0' <= Decimal(n)[i] <= '9'
    ensures Value(Decimal(n)) == n
    ensures Decimal(n) != "" && (Decimal(n)[0] == '0' <==> n == 0)
  {
    assert Digit(n % 10) as int == '0' as int + n % 10;
    if n < 10 {
      assert Decimal(n)[..0] == "";
    } else {
      DecimalReads(n / 10);
      assert Decimal(n)[..|Decimal(n)|-1] == Decimal(n / 10);
    }
  }

  /** Prefix, stem and number, joined by underscores. */
  lemma IdReads()
    ensures RecordId("user", "notes", 7) == "user_notes_7"
  {
    assert Decimal(7) == ['7'];
  }
}
