/**
 * The text of Bean.ToString (LimeBean/Bean.cs:42-51): the kind, then " #"
 * and the decimal ID when there is one; with a parser that recovers both.
 */
module Display {
  import opened Wrappers
  import opened Names

  function DigitChar(d: nat): (c: char)
    requires d < 10
    ensures '0' <= c <= '9' && c as int - '0' as int == d
  {
    "0123456789"[d]
  }

  /** Every character is an ASCII decimal digit. */
  predicate IsDigitString(s: string) {
    forall i :: 0 <= i < |s| ==> '0' <= s[i] <= '9'
  }

  /** The decimal digits of a natural number, most significant first, without leading zeros. */
  function Digits(n: nat): (s: string)
    ensures |s| > 0 && IsDigitString(s)
    ensures s[0] == '0' ==> n == 0
    decreases n
  {
    if n < 10 then [DigitChar(n)] else Digits(n / 10) + [DigitChar(n % 10)]
  }

  /** long.ToString(): a '-' before the digits of a negative number. */
  function DecimalString(n: int): (s: string)
    ensures |s| > 0
    ensures n < 0 <==> s[0] == '-'
    ensures n >= 0 ==> IsDigitString(s)
    ensures n < 0 ==> IsDigitString(s[1..]) && |s| > 1
    ensures n < 0 ==> s[1] != '0'
    ensures n >= 0 && s[0] == '0' ==> s == "0"
  {
    if n < 0 then "-" + Digits(-n) else Digits(n)
  }

  /** The value of a string of decimal digits. */
  function DigitsValue(s: string): (n: nat)
    requires IsDigitString(s)
  {
    if s == [] then 0 else 10 * DigitsValue(s[..|s| - 1]) + (s[|s| - 1] as int - '0' as int)
  }

  /** Parses the text of DecimalString back; None when it is not a number. */
  function ParseDecimal(s: string): (r: Option<int>) {
    if |s| > 0 && s[0] == '-' then
      if |s| > 1 && IsDigitString(s[1..]) then Some(0 - DigitsValue(s[1..]) as int) else None
    else if |s| > 0 && IsDigitString(s) then Some(DigitsValue(s))
    else None
  }

  lemma {:induction false} DigitsRoundTrip(n: nat)
    ensures DigitsValue(Digits(n)) == n
    decreases n
  {
    if n >= 10 {
      var s := Digits(n);
      assert s[..|s| - 1] == Digits(n / 10);
      DigitsRoundTrip(n / 10);
    }
  }

  lemma DecimalRoundTrip(n: int)
    ensures ParseDecimal(DecimalString(n)) == Some(n)
  {
    var s := DecimalString(n);
    if n < 0 {
      var d := Digits(-n);
      assert s[1..] == d;
      DigitsRoundTrip(-n);
    } else {
      assert s[0] != '-';
      DigitsRoundTrip(n);
    }
  }

  /** The ToString text of a bean that has a kind. */
  function Render(kind: string, id: Option<int>): (s: string)
    ensures |s| >= |kind| && s[..|kind|] == kind
    ensures id.None? <==> |s| == |kind|
    ensures id.Some? ==> s[|kind|..] == " #" + DecimalString(id.value)
  {
    match id
    case None => kind
    case Some(n) => kind + " #" + DecimalString(n)
  }

  /** The position of the first '#' in `s`, or |s| when there is none. */
  function HashIndex(s: string): (i: nat)
    ensures i <= |s|
    ensures forall j :: 0 <= j < i ==> s[j] != '#'
    ensures i < |s| ==> s[i] == '#'
  {
    if s == [] then 0 else if s[0] == '#' then 0 else 1 + HashIndex(s[1..])
  }

  /** Splits a rendering at its first '#' back into the kind and the ID. */
  function ParseRender(s: string): (r: (string, Option<int>)) {
    var i := HashIndex(s);
    if i == |s| then (s, None)
    else if i >= 1 && s[i - 1] == ' ' then (s[..i - 1], ParseDecimal(s[i + 1..]))
    else (s, None)
  }

  /** A valid kind contains no '#', so the rendering is unambiguous: it parses back to the kind and the ID. */
  lemma RenderRoundTrip(kind: string, id: Option<int>)
    requires IsValidName(kind)
    ensures ParseRender(Render(kind, id)) == (kind, id)
  {
    var s := Render(kind, id);
    assert forall j :: 0 <= j < |kind| ==> s[j] == kind[j] && kind[j] != '#';
    match id
    case None =>
      assert HashIndex(s) == |s|;
    case Some(n) =>
      assert s[|kind|] == ' ' && s[|kind| + 1] == '#';
      assert HashIndex(s) == |kind| + 1;
      assert s[..|kind|] == kind;
      assert s[|kind| + 2..] == DecimalString(n);
      DecimalRoundTrip(n);
  }
}
