/** Board labels such as "B3": a column letter followed by the 1-based row number.
    `_pos_to_label` of backend/game/agent.py and `label_from_pos` of backend/app.py build
    them; backend/app.py parses one back to find the previous cell. */
module MoveLabels {
  import opened Basics
  import opened Geometry

  /** The column letters the board knows about. */
  const Letters: string := "ABCDE"

  /** `['A', 'B', 'C', 'D', 'E'][:n]`, with Python's slice rules for a negative `n`. */
  function Columns(n: int): (cs: string)
    ensures |cs| == if n >= 0 then Min(5, n) else Max(0, 5 + n)
    ensures forall i :: 0 <= i < |cs| ==> cs[i] == Letters[i]
  {
    if n >= 5 then Letters
    else if n >= 0 then Letters[..n]
    else if 5 + n > 0 then Letters[..5 + n]
    else ""
  }

  function DigitChar(d: nat): char
    requires d < 10
  {
    "0123456789"[d]
  }

  predicate IsDigit(c: char)
  {
    '0' <= c <= '9'
  }

  function DigitValue(c: char): (d: nat)
    requires IsDigit(c)
    ensures d < 10
  {
    (c - '0') as nat
  }

  /** The decimal digits of a natural number, without leading zeros. */
  function NatToString(n: nat): (s: string)
    ensures |s| > 0
    ensures forall i :: 0 <= i < |s| ==> IsDigit(s[i])
    ensures |s| > 1 ==> s[0] != '0'
  {
    if n < 10 then [DigitChar(n)] else NatToString(n / 10) + [DigitChar(n % 10)]
  }

  /** `str(n)`: an optional minus sign and the decimal digits. */
  function IntToString(n: int): string
  {
    if n < 0 then "-" + NatToString(-n) else NatToString(n)
  }

  predicate AllDigits(s: string)
  {
    forall i :: 0 <= i < |s| ==> IsDigit(s[i])
  }

  /** The value of a string of decimal digits, read left to right. */
  function DigitsValue(s: string): nat
    requires AllDigits(s)
  {
    if |s| == 0 then 0 else DigitsValue(s[..|s| - 1]) * 10 + DigitValue(s[|s| - 1])
  }

  /** `int(s)` for the strings `str` produces: an optional sign and at least one digit. */
  function ParseInt(s: string): Option<int>
  {
    if |s| > 0 && (s[0] == '-' || s[0] == '+') then
      var digits := s[1..];
      if |digits| > 0 && AllDigits(digits) then
        var magnitude: int := DigitsValue(digits);
        Some(if s[0] == '-' then -magnitude else magnitude)
      else None
    else if |s| > 0 && AllDigits(s) then Some(DigitsValue(s))
    else None
  }

  /** Index of the first occurrence of `c` in `s` (`list.index`). */
  function IndexOf(s: string, c: char): (r: Option<nat>)
    ensures r.Some? <==> c in s
    ensures r.Some? ==> r.value < |s| && s[r.value] == c && forall j :: 0 <= j < r.value ==> s[j] != c
  {
    if |s| == 0 then None
    else if s[0] == c then Some(0)
    else match IndexOf(s[1..], c)
      case None => None
      case Some(i) => Some(i + 1)
  }

  /** The ways parsing a label back into a position fails; the source raises an exception. */
  datatype LabelError =
    | EmptyLabel    // `prev_label[0]` on an empty string: IndexError
    | UnknownColumn // the first character is not among the column letters: ValueError
    | BadRow        // the rest is not an integer: ValueError

  /** `_pos_to_label` / `label_from_pos`: the column letter, then the row plus one. */
  function PosToLabel(pos: Pos, cols: int): (l: string)
    requires 0 <= pos.1 < |Columns(cols)|
    ensures |l| >= 2 && l[0] == Letters[pos.1] && l[1..] == IntToString(pos.0 + 1)
  {
    [Columns(cols)[pos.1]] + IntToString(pos.0 + 1)
  }

  /** The parse at backend/app.py:83-86: column from the first character, row from the rest. */
  function ParseLabel(l: string, cols: int): (r: Result<Pos, LabelError>)
    ensures r.Success? ==> 0 <= r.value.1 < |Columns(cols)| && |l| > 0 && l[0] == Letters[r.value.1]
    ensures r.Success? ==> ParseInt(l[1..]) == Some(r.value.0 + 1)
    ensures |l| == 0 ==> r == Failure(EmptyLabel)
    ensures |l| > 0 && l[0] !in Columns(cols) ==> r == Failure(UnknownColumn)
    ensures |l| > 0 && l[0] in Columns(cols) && ParseInt(l[1..]).None? ==> r == Failure(BadRow)
    ensures |l| > 0 && l[0] in Columns(cols) && ParseInt(l[1..]).Some? ==> r.Success?
  {
    if |l| == 0 then Failure(EmptyLabel)
    else match IndexOf(Columns(cols), l[0])
      case None => Failure(UnknownColumn)
      case Some(col) =>
        match ParseInt(l[1..])
        case None => Failure(BadRow)
        case Some(row) => Success((row - 1, col))
  }

  /** Reading back the digits of a number gives the number. */
  lemma {:induction false} DigitsRoundTrip(n: nat)
    ensures AllDigits(NatToString(n)) && DigitsValue(NatToString(n)) == n
  {
    var s := NatToString(n);
    if n >= 10 {
      DigitsRoundTrip(n / 10);
      assert s[..|s| - 1] == NatToString(n / 10);
      assert DigitValue(s[|s| - 1]) == n % 10;
    } else {
      assert DigitValue(s[0]) == n;
    }
  }

  /** `int(str(n)) == n` for every integer. */
  lemma IntRoundTrip(n: int)
    ensures ParseInt(IntToString(n)) == Some(n)
  {
    var s := IntToString(n);
    if n < 0 {
      var digits := NatToString(-n);
      DigitsRoundTrip(-n);
      assert s == "-" + digits;
      assert s[0] == '-' && s[1..] == digits;
    } else {
      DigitsRoundTrip(n);
      assert s == NatToString(n);
      assert IsDigit(s[0]);
    }
  }

  /** The column letters are distinct, so looking a letter up gives back its index. */
  lemma LetterIndex(cols: int, i: nat)
    requires i < |Columns(cols)|
    ensures IndexOf(Columns(cols), Letters[i]) == Some(i)
  {
    var cs := Columns(cols);
    assert cs[i] == Letters[i];
    assert forall j :: 0 <= j < |cs| && j != i ==> cs[j] != Letters[i];
  }

  /** Parsing the label of a position gives back the position, for every row and every
      column the label letters cover. */
  lemma LabelRoundTrip(pos: Pos, cols: int)
    requires 0 <= pos.1 < |Columns(cols)|
    ensures ParseLabel(PosToLabel(pos, cols), cols) == Success(pos)
  {
    var l := PosToLabel(pos, cols);
    LetterIndex(cols, pos.1);
    IntRoundTrip(pos.0 + 1);
    assert l[1..] == IntToString(pos.0 + 1);
  }
}
