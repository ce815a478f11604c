/** PHP's ip2long, which the firewall uses to read an IPv4 address as a
    32-bit number. PHP implements it with the C library's inet_pton: the
    address must be exactly four decimal octets separated by dots, each octet
    a non-empty run of digits without a leading zero (a lone "0" is allowed)
    and at most 255. Anything else fails, and ip2long returns false. */
module IPv4 {
  import opened Php

  predicate IsDigit(c: char)
  {
    '0' <= c <= '9'
  }

  predicate IsDigits(s: string)
  {
    forall i :: 0 <= i < |s| ==> IsDigit(s[i])
  }

  function DigitValue(c: char): (d: nat)
    requires IsDigit(c)
    ensures d < 10
  {
    (c as int) - ('0' as int)
  }

  function DigitChar(d: nat): (c: char)
    requires d < 10
    ensures IsDigit(c) && DigitValue(c) == d
  {
    (('0' as int) + d) as char
  }

  /** The number a string of decimal digits denotes (most significant digit first). */
  function DecimalValue(s: string): nat
    requires IsDigits(s)
    decreases |s|
  {
    if s == [] then 0 else 10 * DecimalValue(s[..|s| - 1]) + DigitValue(s[|s| - 1])
  }

  /** The octet syntax inet_pton accepts: digits only, non-empty, and no leading zero
      unless the octet is the single digit "0". */
  predicate IsCanonicalDecimal(s: string)
  {
    |s| > 0 && IsDigits(s) && (s[0] == '0' ==> |s| == 1)
  }

  /** The canonical decimal spelling of a number. */
  function Decimal(n: nat): (s: string)
    ensures IsCanonicalDecimal(s)
    ensures s[0] == '0' <==> n == 0
    decreases n
  {
    if n < 10 then [DigitChar(n)] else Decimal(n / 10) + [DigitChar(n % 10)]
  }

  /** Reading the canonical spelling of n gives back n. */
  lemma {:induction false} DecimalValueOfDecimal(n: nat)
    ensures DecimalValue(Decimal(n)) == n
    decreases n
  {
    if n >= 10 {
      DecimalValueOfDecimal(n / 10);
      var s := Decimal(n);
      assert s[..|s| - 1] == Decimal(n / 10);
    }
  }

  /** A digit string that does not start with '0' denotes a positive number. */
  lemma {:induction false} LeadingDigitPositive(s: string)
    requires |s| > 0 && IsDigits(s) && s[0] != '0'
    ensures DecimalValue(s) >= 1
    decreases |s|
  {
    if |s| > 1 {
      LeadingDigitPositive(s[..|s| - 1]);
    }
  }

  /** Every canonical digit string is the spelling of the number it denotes. */
  lemma {:induction false} DecimalOfDecimalValue(s: string)
    requires IsCanonicalDecimal(s)
    ensures Decimal(DecimalValue(s)) == s
    decreases |s|
  {
    if |s| == 1 {
      assert Decimal(DecimalValue(s)) == [s[0]];
    } else {
      var init := s[..|s| - 1];
      DecimalOfDecimalValue(init);
      LeadingDigitPositive(init);
      var v := DecimalValue(s);
      assert v / 10 == DecimalValue(init) && v % 10 == DigitValue(s[|s| - 1]);
      assert s == init + [s[|s| - 1]];
    }
  }

  /** Parts glued back together with the separator between them. */
  function Join(parts: seq<string>, sep: char): string
    requires |parts| >= 1
  {
    if |parts| == 1 then parts[0] else parts[0] + [sep] + Join(parts[1..], sep)
  }

  /** The pieces of s between separators, as PHP's explode: always at least one
      piece, none containing the separator, and joining them gives s back. */
  function Split(s: string, sep: char): (parts: seq<string>)
    ensures |parts| >= 1
    ensures forall i :: 0 <= i < |parts| ==> sep !in parts[i]
    ensures Join(parts, sep) == s
    decreases |s|
  {
    if sep !in s then [s]
    else
      var i := IndexOf(s, sep).value;
      var rest := Split(s[i + 1..], sep);
      assert ([s[..i]] + rest)[1..] == rest;
      assert s == s[..i] + [sep] + s[i + 1..];
      [s[..i]] + rest
  }

  /** Splitting undoes joining, provided no part holds the separator. */
  lemma {:induction false} SplitJoin(parts: seq<string>, sep: char)
    requires |parts| >= 1
    requires forall i :: 0 <= i < |parts| ==> sep !in parts[i]
    ensures Split(Join(parts, sep), sep) == parts
    decreases |parts|
  {
    if |parts| > 1 {
      var head, tail := parts[0], Join(parts[1..], sep);
      var s := head + [sep] + tail;
      IndexOfAfter(head, sep, tail);
      var i := IndexOf(s, sep).value;
      assert s[..i] == head;
      assert s[i + 1..] == tail;
      SplitJoin(parts[1..], sep);
      assert parts == [head] + parts[1..];
    }
  }

  /** The four octets of an IPv4 address, most significant first. */
  datatype Octets = Octets(a: nat, b: nat, c: nat, d: nat)
  {
    predicate Valid()
    {
      a <= 255 && b <= 255 && c <= 255 && d <= 255
    }

    /** The address as the unsigned 32-bit number ip2long returns. */
    function Long(): nat
    {
      a * 0x100_0000 + b * 0x1_0000 + c * 0x100 + d
    }

    /** The dotted-quad spelling of the address. */
    function Format(): string
    {
      Join([Decimal(a), Decimal(b), Decimal(c), Decimal(d)], '.')
    }
  }

  /** One octet: a canonical decimal no greater than 255, or failure. */
  function ParseOctet(p: string): (r: Option<nat>)
    ensures r.Some? <==> IsCanonicalDecimal(p) && DecimalValue(p) <= 255
    ensures r.Some? ==> r.value <= 255 && Decimal(r.value) == p
  {
    if IsCanonicalDecimal(p) && DecimalValue(p) <= 255 then
      DecimalOfDecimalValue(p);
      Some(DecimalValue(p))
    else None
  }

  /** The octets of a dotted-quad address, or failure. */
  function ParseOctets(s: string): (r: Option<Octets>)
    ensures r.Some? ==> r.value.Valid()
    ensures r.Some? <==> var parts := Split(s, '.');
                         |parts| == 4 && ParseOctet(parts[0]).Some? && ParseOctet(parts[1]).Some? &&
                         ParseOctet(parts[2]).Some? && ParseOctet(parts[3]).Some?
    ensures r.Some? ==>
              Split(s, '.') == [Decimal(r.value.a), Decimal(r.value.b), Decimal(r.value.c), Decimal(r.value.d)]
  {
    var parts := Split(s, '.');
    if |parts| == 4 && ParseOctet(parts[0]).Some? && ParseOctet(parts[1]).Some? &&
       ParseOctet(parts[2]).Some? && ParseOctet(parts[3]).Some? then
      var q := Octets(ParseOctet(parts[0]).value, ParseOctet(parts[1]).value,
                      ParseOctet(parts[2]).value, ParseOctet(parts[3]).value);
      assert parts == [Decimal(q.a), Decimal(q.b), Decimal(q.c), Decimal(q.d)];
      Some(q)
    else
      None
  }

  /** PHP ip2long: the address as an unsigned 32-bit number, or false (None). */
  function Ip2Long(s: string): (r: Option<nat>)
    ensures r.Some? ==> r.value < 0x1_0000_0000
    ensures r.Some? <==> ParseOctets(s).Some?
  {
    match ParseOctets(s)
    case None => None
    case Some(q) => Some(q.Long())
  }

  lemma DecimalHasNoDot(n: nat)
    ensures '.' !in Decimal(n)
  {
  }

  /** ip2long accepts the dotted-quad spelling of every address and returns its number. */
  lemma ParseFormat(q: Octets)
    requires q.Valid()
    ensures ParseOctets(q.Format()) == Some(q)
    ensures Ip2Long(q.Format()) == Some(q.Long())
  {
    var parts := [Decimal(q.a), Decimal(q.b), Decimal(q.c), Decimal(q.d)];
    DecimalHasNoDot(q.a);
    DecimalHasNoDot(q.b);
    DecimalHasNoDot(q.c);
    DecimalHasNoDot(q.d);
    SplitJoin(parts, '.');
    DecimalValueOfDecimal(q.a);
    DecimalValueOfDecimal(q.b);
    DecimalValueOfDecimal(q.c);
    DecimalValueOfDecimal(q.d);
  }

  /** ip2long accepts nothing but the canonical dotted-quad spelling of an address. */
  lemma FormatParse(s: string)
    requires ParseOctets(s).Some?
    ensures ParseOctets(s).value.Format() == s
  {
    var parts := Split(s, '.');
    assert parts == [parts[0], parts[1], parts[2], parts[3]];
  }

  /** ip2long is injective: two strings it accepts with the same number are equal. */
  lemma Ip2LongInjective(s: string, t: string)
    requires Ip2Long(s).Some? && Ip2Long(s) == Ip2Long(t)
    ensures s == t
  {
    var p, q := ParseOctets(s).value, ParseOctets(t).value;
    LongDetermines(p, q);
    FormatParse(s);
    FormatParse(t);
  }

  /** The number determines the octets. */
  lemma LongDetermines(p: Octets, q: Octets)
    requires p.Valid() && q.Valid() && p.Long() == q.Long()
    ensures p == q
  {
    assert p.a == q.a;
    assert p.b == q.b;
    assert p.c == q.c;
  }
}
