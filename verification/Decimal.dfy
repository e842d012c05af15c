/** Decimal text of integers: std::to_string, and the reader that inverts it. */
module Decimal {
  import opened Seqs
  import opened Gnmi

  function PrintDigit(d: nat): (c: char)
    requires d < 10
    ensures '0' <= c <= '9'
  {
    '0' + d as char
  }

  function PrintNat(n: nat): (s: string)
    ensures s != "" && '0' <= s[0] <= '9'
  {
    if n < 10 then [PrintDigit(n)] else PrintNat(n / 10) + [PrintDigit(n % 10)]
  }

  /** The text of a signed or unsigned integer. */
  function PrintInt(n: int): string {
    if n < 0 then "-" + PrintNat(-n) else PrintNat(n)
  }

  function ReadDigit(c: char): Option<nat> {
    if '0' <= c <= '9' then Some(c as int - '0' as int) else None
  }

  function ReadNat(s: string): Option<nat> {
    if s == "" then None
    else
      match ReadDigit(s[|s| - 1])
      case None => None
      case Some(d) =>
        if |s| == 1 then Some(d)
        else
          match ReadNat(s[..|s| - 1])
          case None => None
          case Some(high) => Some(high * 10 + d)
  }

  function ReadInt(s: string): (r: Option<int>) {
    if s != "" && s[0] == '-' then
      match ReadNat(s[1..])
      case None => None
      case Some(n) => Some(0 - n as int)
    else
      match ReadNat(s)
      case None => None
      case Some(n) => Some(n)
  }

  lemma ReadSnoc(high: string, d: nat)
    requires d < 10
    ensures ReadNat(high + [PrintDigit(d)]) ==
            if high == "" then Some(d)
            else if ReadNat(high).None? then None else Some(ReadNat(high).value * 10 + d)
  {
    Unsnoc(high, PrintDigit(d));
  }

  lemma {:induction false} ReadPrintNat(n: nat)
    ensures ReadNat(PrintNat(n)) == Some(n)
  {
    if n < 10 {
      ReadSnoc("", n);
      assert "" + [PrintDigit(n)] == PrintNat(n);
    } else {
      ReadPrintNat(n / 10);
      ReadSnoc(PrintNat(n / 10), n % 10);
    }
  }

  lemma DropSign(s: string)
    ensures ("-" + s)[0] == '-' && ("-" + s)[1..] == s
  {
  }

  /** Every integer is recovered from its decimal text, sign included. */
  lemma ReadPrintInt(n: int)
    ensures ReadInt(PrintInt(n)) == Some(n)
  {
    if n < 0 {
      ReadPrintNat(-n);
      DropSign(PrintNat(-n));
    } else {
      ReadPrintNat(n);
    }
  }
}
