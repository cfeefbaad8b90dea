/** Hexadecimal numbers as the program prints them (%x) and as Go's ParseUint reads them back in base 16. */
module Hex {
  import opened Options

  function Digit(d: nat): char
    requires d < 16
  {
    if d < 10 then '0' + d as char else 'a' + (d - 10) as char
  }

  function Value(c: char): Option<nat> {
    if '0' <= c <= '9' then Some((c - '0') as nat)
    else if 'a' <= c <= 'f' then Some((c - 'a') as nat + 10)
    else if 'A' <= c <= 'F' then Some((c - 'A') as nat + 10)
    else None
  }

  /** Lower case, no prefix, no leading zeros. */
  function Print(n: nat): (s: string)
    ensures s != []
  {
    if n < 16 then [Digit(n)] else Print(n / 16) + [Digit(n % 16)]
  }

  /** The value of a string of hex digits. */
  function Eval(s: string): Option<nat> {
    if s == [] then Some(0)
    else
      var front, last := Eval(s[..|s| - 1]), Value(s[|s| - 1]);
      if front.Some? && last.Some? then Some(front.value * 16 + last.value) else None
  }

  /** strconv.ParseUint(s, 16, bits) with limit = 2^bits: None stands for a syntax or range error. */
  function ParseUint(s: string, limit: nat): Option<nat> {
    if s == [] then None
    else
      var v := Eval(s);
      if v.Some? && v.value < limit then v else None
  }

  /** A number is printed as its sixteens, if it has any, and then its ones; reading takes either case. */
  lemma PrintIs(n: nat, d: nat)
    requires d < 16
    ensures Print(d) == ["0123456789abcdef"[d]]
    ensures n > 0 ==> Print(16 * n + d) == Print(n) + Print(d)
    ensures Value("0123456789ABCDEF"[d]) == Value("0123456789abcdef"[d]) == Some(d)
  {
  }

  lemma {:induction false} PrintEval(n: nat)
    ensures Eval(Print(n)) == Some(n)
    ensures ':' !in Print(n)
  {
    assert Eval([]) == Some(0);
    if n < 16 {
      assert Print(n)[..0] == [];
    } else {
      PrintEval(n / 16);
      assert Print(n)[..|Print(n)| - 1] == Print(n / 16);
    }
  }

  /** Reading back a printed number gives that number, if it is in range. */
  lemma ParsePrint(n: nat, limit: nat)
    ensures ParseUint(Print(n), limit) == if n < limit then Some(n) else None
  {
    PrintEval(n);
  }
}
