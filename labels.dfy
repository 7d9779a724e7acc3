/**
 The text the editor shows for positions: `${index + 1}` on map markers and
 `(index + 1).toString().padStart(2, '0')` in the waypoint table.
 */
module Labels {

  predicate IsDigit(c: char)
  {
    '0' <= c <= '9'
  }

  predicate IsDigits(s: string)
  {
    forall i :: 0 <= i < |s| ==> IsDigit(s[i])
  }

  function DigitChar(d: nat): (c: char)
    requires d < 10
    ensures IsDigit(c) && c as int - '0' as int == d
  {
    ['0', '1', '2', '3', '4', '5', '6', '7', '8', '9'][d]
  }

  /** `n.toString()` for a non-negative integer: decimal digits without leading zeros. */
  function Decimal(n: nat): (s: string)
    ensures |s| >= 1 && IsDigits(s)
    ensures n > 0 ==> s[0] != '0'
    decreases n
  {
    if n < 10 then [DigitChar(n)] else Decimal(n / 10) + [DigitChar(n % 10)]
  }

  /** The number a string of decimal digits denotes. */
  function Value(s: string): nat
  {
    if s == [] then 0
    else Value(s[..|s| - 1]) * 10 + (if IsDigit(s[|s| - 1]) then s[|s| - 1] as int - '0' as int else 0)
  }

  /** Reading back the decimal text of `n` gives `n`. */
  lemma {:induction false} ValueOfDecimal(n: nat)
    ensures Value(Decimal(n)) == n
    decreases n
  {
    if n >= 10 {
      var s := Decimal(n);
      assert s[..|s| - 1] == Decimal(n / 10);
      ValueOfDecimal(n / 10);
    }
  }

  /** Different numbers have different decimal texts. */
  lemma DecimalInjective(m: nat, n: nat)
    requires m != n
    ensures Decimal(m) != Decimal(n)
  {
    ValueOfDecimal(m);
    ValueOfDecimal(n);
  }

  function Repeat(c: char, k: nat): (s: string)
    ensures |s| == k && forall i :: 0 <= i < k ==> s[i] == c
  {
    if k == 0 then [] else [c] + Repeat(c, k - 1)
  }

  /** `s.padStart(width, fill)`: fills on the left up to `width` characters, never shortens. */
  function PadStart(s: string, width: nat, fill: char): (r: string)
    ensures |r| == if |s| >= width then |s| else width
    ensures r[|r| - |s|..] == s
    ensures forall i :: 0 <= i < |r| - |s| ==> r[i] == fill
  {
    if |s| >= width then s else Repeat(fill, width - |s|) + s
  }

  /** A leading zero does not change the number a digit string denotes. */
  lemma {:induction false} ValueLeadingZero(s: string)
    ensures Value(['0'] + s) == Value(s)
    decreases |s|
  {
    if s != [] {
      var t := ['0'] + s;
      assert t[..|t| - 1] == ['0'] + s[..|s| - 1];
      assert t[|t| - 1] == s[|s| - 1];
      ValueLeadingZero(s[..|s| - 1]);
    }
  }

  /** Any number of leading zeros does not change the number. */
  lemma {:induction false} ValueLeadingZeros(k: nat, s: string)
    ensures Value(Repeat('0', k) + s) == Value(s)
    decreases k
  {
    if k > 0 {
      var t := Repeat('0', k - 1) + s;
      assert Repeat('0', k) == ['0'] + Repeat('0', k - 1);
      assert Repeat('0', k) + s == ['0'] + t;
      ValueLeadingZero(t);
      ValueLeadingZeros(k - 1, s);
    } else {
      assert Repeat('0', k) + s == s;
    }
  }

  /** The marker label of the entry at `index`: `${index + 1}`, never padded. */
  function MarkerLabel(index: nat): (text: string)
    ensures IsDigits(text) && Value(text) == index + 1
    ensures |text| >= 1 && text[0] != '0'
  {
    ValueOfDecimal(index + 1);
    Decimal(index + 1)
  }

  /** The table's WP cell for the row at `index`: its 1-based position, at least two digits. */
  function RowNumber(index: nat): (r: string)
    ensures |r| >= 2 && IsDigits(r) && Value(r) == index + 1
    ensures index + 1 >= 10 ==> r == Decimal(index + 1)
    ensures index + 1 < 10 ==> r == ['0'] + Decimal(index + 1)
  {
    var s := Decimal(index + 1);
    ValueOfDecimal(index + 1);
    var r := PadStart(s, 2, '0');
    if |s| < 2 then
      assert r == Repeat('0', 2 - |s|) + s;
      ValueLeadingZeros(2 - |s|, s);
      r
    else
      r
  }

  /**
   The map and the table number an entry alike except for the padding: for
   the first nine entries the WP cell is the marker label with a '0' in
   front, so the two texts differ; from the tenth entry on they are equal.
   */
  lemma MarkerAndRowNumber(index: nat)
    ensures index + 1 < 10 ==> RowNumber(index) == ['0'] + MarkerLabel(index) && RowNumber(index) != MarkerLabel(index)
    ensures index + 1 >= 10 ==> RowNumber(index) == MarkerLabel(index)
  {
  }

  /** Two rows never show the same number, and two markers never carry the same label. */
  lemma LabelsDistinct(i: nat, j: nat)
    requires i != j
    ensures RowNumber(i) != RowNumber(j)
    ensures MarkerLabel(i) != MarkerLabel(j)
  {
  }
}
