/**
 Sorted-set member names. A member is the text "<nanos>-<batch>-<index>"; the batch
 number comes from one process-wide 64-bit counter.
 */
module MemberNames {
  datatype Member = Member(nanos: int, batch: nat, index: nat)

  function Digit(d: nat): (c: char)
    requires d < 10
    ensures c != '-'
  {
    "0123456789"[d]
  }

  function Digits(n: nat): string {
    if n < 10 then [Digit(n)] else Digits(n / 10) + [Digit(n % 10)]
  }

  function Decimal(n: int): string {
    if n < 0 then "-" + Digits(-n) else Digits(n)
  }

  function Text(m: Member): string {
    Decimal(m.nanos) + "-" + Digits(m.batch) + "-" + Digits(m.index)
  }

  lemma {:induction false} DigitsHaveNoDash(n: nat)
    ensures |Digits(n)| >= 1 && '-' !in Digits(n)
  {
    if n >= 10 { DigitsHaveNoDash(n / 10); }
  }

  // The number a text of decimal digits denotes.
  function NumberOf(s: string): int {
    if s == "" then 0 else NumberOf(s[..|s| - 1]) * 10 + (s[|s| - 1] as int - '0' as int)
  }

  lemma {:induction false} DigitsDenote(n: nat)
    ensures NumberOf(Digits(n)) == n
  {
    if n < 10 {
      assert Digits(n)[..0] == "";
    } else {
      DigitsDenote(n / 10);
      assert Digits(n)[..|Digits(n)| - 1] == Digits(n / 10);
    }
  }

  lemma DigitsInjective(a: nat, b: nat)
    requires Digits(a) == Digits(b)
    ensures a == b
  {
    hide Digits;
    DigitsDenote(a);
    DigitsDenote(b);
  }

  lemma DecimalInjective(a: int, b: int)
    requires Decimal(a) == Decimal(b)
    ensures a == b
  {
    DigitsHaveNoDash(if a < 0 then -a else a);
    DigitsHaveNoDash(if b < 0 then -b else b);
    assert a < 0 <==> Decimal(a)[0] == '-';
    assert b < 0 <==> Decimal(b)[0] == '-';
    if a < 0 {
      assert Decimal(a)[1..] == Digits(-a) && Decimal(b)[1..] == Digits(-b);
      DigitsInjective(-a, -b);
    } else {
      DigitsInjective(a, b);
    }
  }

  // A dash followed by digits pins down where the digits start.
  lemma LastFieldUnique(p: string, d: string, p': string, d': string)
    requires p + "-" + d == p' + "-" + d'
    requires '-' !in d && '-' !in d'
    ensures p == p' && d == d'
  {
    var s := p + "-" + d;
    assert s[|p|] == '-' && s[|p'|] == '-';
    if |p| < |p'| {
      assert false;
    }
    if |p'| < |p| {
      assert false;
    }
    assert p == s[..|p|] == p';
    assert d == s[|p| + 1..] == d';
  }

  /** No two members share a text, negative times included, so a sorted set keyed by text and one keyed
      by the triple behave alike. */
  lemma TextInjective(m: Member, m': Member)
    requires Text(m) == Text(m')
    ensures m == m'
  {
    DigitsHaveNoDash(m.index);
    DigitsHaveNoDash(m'.index);
    DigitsHaveNoDash(m.batch);
    DigitsHaveNoDash(m'.batch);
    LastFieldUnique(Decimal(m.nanos) + "-" + Digits(m.batch), Digits(m.index),
                    Decimal(m'.nanos) + "-" + Digits(m'.batch), Digits(m'.index));
    LastFieldUnique(Decimal(m.nanos), Digits(m.batch), Decimal(m'.nanos), Digits(m'.batch));
    DigitsInjective(m.index, m'.index);
    DigitsInjective(m.batch, m'.batch);
    DecimalInjective(m.nanos, m'.nanos);
  }
}
