/** The value codec of sudoku_solver.py: `convert_to_numeric` (decoding a cell
    token to an integer), the inline encoder of `extract_solution` (an integer
    back to a cell symbol) and Python's `str` on a cell (the text the writer
    prints). */
module Codec {
  import opened Wrappers

  /** A cell token: the source handles both Python ints and strings. */
  datatype Token = IntTok(i: int) | StrTok(s: string)

  /** `str.isalpha` restricted to single ASCII characters. */
  predicate IsAsciiLetter(c: char)
  {
    ('A' <= c <= 'Z') || ('a' <= c <= 'z')
  }

  /** `str.upper` on an ASCII letter. */
  function Upper(c: char): (u: char)
    requires IsAsciiLetter(c)
    ensures 'A' <= u <= 'Z'
    ensures 'A' <= c <= 'Z' ==> u == c
    ensures 'a' <= c <= 'z' ==> u as int == c as int - 32
  {
    if 'a' <= c <= 'z' then (c as int - 32) as char else c
  }

  predicate IsDigit(c: char)
  {
    '0' <= c <= '9'
  }

  predicate AllDigits(s: string)
  {
    forall i :: 0 <= i < |s| ==> IsDigit(s[i])
  }

  /** Value of a nonempty run of decimal digits, most significant first. */
  function DigitsValue(s: string): (v: nat)
    requires AllDigits(s)
  {
    if s == [] then 0
    else 10 * DigitsValue(s[..|s| - 1]) + (s[|s| - 1] as int - '0' as int)
  }

  predicate IsSign(c: char)
  {
    c == '-' || c == '+'
  }

  /** The literals `int` accepts here: an optional sign followed by at
      least one ASCII digit. */
  predicate IsIntLiteral(s: string)
  {
    s != [] && if IsSign(s[0]) then |s| > 1 && AllDigits(s[1..]) else AllDigits(s)
  }

  /** Python's `int(s)` on a string already stripped of whitespace: an
      optional sign followed by at least one ASCII digit; anything else is
      a `ValueError`, modelled as `None`. */
  function ParseInt(s: string): (r: Option<int>)
    ensures r.Some? <==> IsIntLiteral(s)
    ensures AllDigits(s) && s != [] ==> r == Some(DigitsValue(s))
    ensures |s| > 1 && s[0] == '+' && AllDigits(s[1..]) ==> r == Some(DigitsValue(s[1..]))
    ensures |s| > 1 && s[0] == '-' && AllDigits(s[1..]) ==> r == Some(0 - DigitsValue(s[1..]) as int)
  {
    if s == [] then None
    else if s[0] == '-' || s[0] == '+' then
      var body := s[1..];
      if body != [] && AllDigits(body) then
        var d: int := DigitsValue(body);
        Some(if s[0] == '-' then -d else d)
      else None
    else if AllDigits(s) then Some(DigitsValue(s))
    else None
  }

  /** `convert_to_numeric` (sudoku_solver.py:5-8): a single letter maps to
      `ord(upper) - 55`, everything else goes through `int`. */
  function Decode(t: Token): (r: Option<int>)
    ensures t.IntTok? ==> r == Some(t.i)
    ensures t.StrTok? && |t.s| == 1 && IsAsciiLetter(t.s[0]) ==> r.Some? && 10 <= r.value <= 35
    ensures t.StrTok? && !(|t.s| == 1 && IsAsciiLetter(t.s[0])) ==> r == ParseInt(t.s)
  {
    match t
    case IntTok(i) => Some(i)
    case StrTok(s) =>
      if |s| == 1 && IsAsciiLetter(s[0]) then Some(Upper(s[0]) as int - 55)
      else ParseInt(s)
  }

  /** The largest value whose symbol `chr(55 + v)` is a Dafny character
      (code points from 0xD800 are surrogates). */
  const MaxEncodable: int := 0xD7FF - 55

  /** The encoder of sudoku_solver.py:112: values above 9 become the
      character `chr(55 + v)`, all others stay integers. */
  function Encode(v: int): (t: Token)
    requires v <= MaxEncodable
    ensures v <= 9 ==> t == IntTok(v)
    ensures 10 <= v <= 35 ==> t.StrTok? && |t.s| == 1 && 'A' <= t.s[0] <= 'Z'
  {
    if v > 9 then StrTok([(55 + v) as char]) else IntTok(v)
  }

  /** Decimal digits of a natural number, without leading zeros. */
  function NatToString(k: nat): (s: string)
    ensures s != [] && AllDigits(s)
    ensures |s| == 1 <==> k < 10
    ensures s[0] == '0' <==> k == 0
    decreases k
  {
    if k < 10 then [('0' as int + k) as char]
    else NatToString(k / 10) + [('0' as int + k % 10) as char]
  }

  /** Python's `str` on an int. */
  function IntToString(i: int): string
  {
    if i < 0 then "-" + NatToString(-i) else NatToString(i)
  }

  /** Python's `str` on a cell of a solution: the decimal of an int, the
      string itself otherwise. */
  function Show(t: Token): string
  {
    match t
    case IntTok(i) => IntToString(i)
    case StrTok(s) => s
  }

  /** `int(str(k))` gives `k` back. */
  lemma {:induction false} DigitsOfNatToString(k: nat)
    ensures DigitsValue(NatToString(k)) == k
    decreases k
  {
    var s := NatToString(k);
    if k >= 10 {
      DigitsOfNatToString(k / 10);
      assert s[..|s| - 1] == NatToString(k / 10);
    }
  }

  lemma ParseIntOfNatToString(k: nat)
    ensures ParseInt(NatToString(k)) == Some(k)
  {
    DigitsOfNatToString(k);
  }

  /** A single letter, upper or lower case, decodes to its position in the
      alphabet plus 9: 'A'/'a' -> 10, ..., 'Z'/'z' -> 35. */
  lemma DecodeLetter(c: char)
    requires 'A' <= c <= 'Z'
    ensures Decode(StrTok([c])) == Some(c as int - 55)
    ensures Decode(StrTok([(c as int + 32) as char])) == Some(c as int - 55)
  {
  }

  /** The round trip between the extractor's encoder and `convert_to_numeric`
      holds for every value up to 35, and also through the text the writer
      prints. */
  lemma RoundTrip(v: int)
    requires v <= 35
    ensures Decode(Encode(v)) == Some(v)
    ensures 0 <= v ==> Decode(StrTok(Show(Encode(v)))) == Some(v)
  {
    if 0 <= v <= 9 {
      ParseIntOfNatToString(v);
      assert NatToString(v) == [('0' as int + v) as char];
    }
  }

  /** Beyond 35 the encoder leaves the alphabet: 36 becomes '[' (which does
      not decode) and 42 becomes 'a' (which decodes as 10). */
  lemma EncodeBeyond35()
    ensures Decode(Encode(36)) == None
    ensures Decode(Encode(42)) == Some(10)
  {
    assert Encode(36) == StrTok(['[']);
    assert Encode(42) == StrTok(['a']);
  }
}
