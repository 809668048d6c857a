/** mDNS hostname choice: "wordclock", then "wordclock1", "wordclock2", ... until
    an advertisement under the name succeeds. */
module Mdns {

  const BaseHostname: string := "wordclock"

  function DigitChar(d: nat): char
    requires d < 10
  {
    "0123456789"[d]
  }

  predicate IsDigit(c: char) { '0' <= c <= '9' }

  /** Python's str(n) for a natural number. */
  function DecimalString(n: nat): (s: string)
    ensures |s| >= 1 && forall i :: 0 <= i < |s| ==> IsDigit(s[i])
  {
    if n < 10 then [DigitChar(n)] else DecimalString(n / 10) + [DigitChar(n % 10)]
  }

  /** Reads a string of decimal digits back as a number. */
  function ParseDecimal(s: string): nat
    requires forall i :: 0 <= i < |s| ==> IsDigit(s[i])
  {
    if s == [] then 0 else ParseDecimal(s[..|s| - 1]) * 10 + DigitValue(s[|s| - 1])
  }

  function DigitValue(c: char): nat
    requires IsDigit(c)
  {
    (c as int - '0' as int) as nat
  }

  /** The hostname tried for candidate number n: the bare base for 0, the base
      followed by the decimal of n otherwise. */
  function Candidate(n: nat): string {
    if n == 0 then BaseHostname else BaseHostname + DecimalString(n)
  }

  lemma {:induction false} ParseDecimalString(n: nat)
    ensures ParseDecimal(DecimalString(n)) == n
  {
    var s := DecimalString(n);
    if n >= 10 {
      ParseDecimalString(n / 10);
      assert s[..|s| - 1] == DecimalString(n / 10);
    }
  }

  /** A positive number is written without a leading zero. */
  lemma {:induction false} DecimalStringNoLeadingZero(n: nat)
    requires n >= 1
    ensures DecimalString(n)[0] != '0'
  {
    if n >= 10 {
      DecimalStringNoLeadingZero(n / 10);
    }
  }

  /** Different candidate numbers give different hostnames, and the suffix "0" is never used. */
  lemma {:induction false} CandidateInjective(a: nat, b: nat)
    ensures Candidate(a) == Candidate(b) ==> a == b
    ensures Candidate(a) != BaseHostname + "0"
  {
    var base := BaseHostname;
    if Candidate(a) == Candidate(b) && a != 0 && b != 0 {
      assert DecimalString(a) == Candidate(a)[|base|..];
      assert DecimalString(b) == Candidate(b)[|base|..];
      ParseDecimalString(a);
      ParseDecimalString(b);
    }
    if a != 0 {
      assert Candidate(a)[|base|..] == DecimalString(a);
      DecimalStringNoLeadingZero(a);
      assert Candidate(a)[|base|] != (base + "0")[|base|];
    }
  }

  /** register_mdns: `taken` holds the candidate numbers whose advertisement raises.
      Returns the first free candidate, after trying every earlier one in order. */
  method RegisterMdns(taken: set<nat>) returns (hostname: string, number: nat)
    ensures number !in taken
    ensures forall k :: 0 <= k < number ==> k in taken
    ensures hostname == Candidate(number)
  {
    hostname := BaseHostname;
    number := 0;
    while number in taken
      invariant forall k :: 0 <= k < number ==> k in taken
      invariant hostname == Candidate(number)
      decreases set k | k in taken && k >= number
    {
      ghost var above := set k | k in taken && k >= number;
      assert number in above && number !in set k | k in taken && k >= number + 1;
      number := number + 1;
      hostname := BaseHostname + DecimalString(number);
    }
  }
}
