/** `CellEntry`: a cell name such as "A1" or "z2" -- one ASCII letter and
    one or two digits -- read through the string its `toString()` returns
    (`None` stands for `null`). */
module CellEntry {
  import opened Common
  import opened JavaLang
  import Ex2Utils

  /** `s.matches("[A-Z][0-9]+")`. */
  predicate UpperThenDigits(s: string) {
    |s| >= 2 && IsUpper(s[0]) && AllDigits(s[1..])
  }

  /** `s.matches("[a-z][0-9]+")`. */
  predicate LowerThenDigits(s: string) {
    |s| >= 2 && IsLower(s[0]) && AllDigits(s[1..])
  }

  /** `isValid()`: false for `null`; otherwise one of the two patterns must
      match and the length must not exceed 3. */
  function IsValid(text: Option<string>): (valid: bool)
    ensures valid <==>
      text.Some? && 2 <= |text.value| <= 3 && IsAsciiLetter(text.value[0]) && AllDigits(text.value[1..])
  {
    match text
    case None => false
    case Some(s) =>
      var valid := UpperThenDigits(s) || LowerThenDigits(s);
      if |s| > 3 then false else valid
  }

  /** Alphabet position of an ASCII letter, ignoring case. */
  function LetterIndex(c: char): (i: nat)
    requires IsAsciiLetter(c)
    ensures i < 26
  {
    if IsUpper(c) then c as int - 'A' as int else c as int - 'a' as int
  }

  /** `Character.toLowerCase` on the upper-case letters of the alphabet. */
  function ToLower(c: char): (l: char)
    requires IsUpper(c)
    ensures IsLower(l) && l as int - 'a' as int == c as int - 'A' as int
  {
    (c as int + 32) as char
  }

  /** What `getX()` returns: the column of a valid name, -1 otherwise. */
  function Column(text: Option<string>): (x: int)
    ensures x == -1 <==> !IsValid(text)
    ensures IsValid(text) ==> 0 <= x < 26 && x == LetterIndex(text.value[0])
  {
    if IsValid(text) then LetterIndex(text.value[0]) else -1
  }

  /** `getX()`: scans the 26 column names and keeps the index of the one that
      equals the first character, in either case. */
  method GetX(text: Option<string>) returns (x: int)
    ensures x == Column(text)
  {
    x := -1;
    if IsValid(text) {
      var s := text.value;
      for i := 0 to 26
        invariant x == if LetterIndex(s[0]) < i then LetterIndex(s[0]) else -1
      {
        Ex2Utils.ABCIsAlphabet(i);
        var c := Ex2Utils.ABC[i][0];
        if s[0] == c {
          x := i;
        } else if s[0] == ToLower(c) {
          x := i;
        }
      }
    }
  }

  /** `getY()`: -1 for an invalid name, otherwise `Integer.parseInt` of
      everything after the letter -- a number below 100. */
  function GetY(text: Option<string>): (y: int)
    ensures y == -1 <==> !IsValid(text)
    ensures IsValid(text) ==> 0 <= y < 100 && y == DigitsValue(text.value[1..])
  {
    if IsValid(text) then
      var digits := text.value[1..];
      assert DigitsValue(digits) < Pow10(|digits|) <= 100;
      match ParseInt(digits)
      case Some(v) => v
      case None => assert false; -1
    else -1
  }

  /** The name of column `c`, row `r`: an upper-case letter and the row's
      decimal digits. */
  function Name(c: nat, r: nat): (s: string)
    requires c < 26
  {
    [('A' as int + c) as char] + NatToString(r)
  }

  /** A name built from a column below 26 and a row below 100 is valid and
      decodes back to that column and row. */
  lemma NameRoundTrip(c: nat, r: nat)
    requires c < 26 && r < 100
    ensures IsValid(Some(Name(c, r)))
    ensures Column(Some(Name(c, r))) == c && GetY(Some(Name(c, r))) == r
  {
    NatToStringShort(r);
    NatToStringValue(r);
    assert Name(c, r)[1..] == NatToString(r);
  }

  /** Decoding a valid name and building the name back gives the same name,
      except that the letter comes out upper-case and a leading zero of the
      row is dropped. */
  lemma NameOfDecoded(s: string)
    requires IsValid(Some(s))
    ensures var back := Name(Column(Some(s)), GetY(Some(s)));
      back[0] as int == LetterIndex(s[0]) + 'A' as int &&
      (s[1] != '0' || |s| == 2 ==> back == [back[0]] + s[1..])
  {
    var r := GetY(Some(s));
    var back := Name(Column(Some(s)), r);
    var ds := s[1..];
    assert back[1..] == NatToString(r);
    if |ds| == 1 {
      assert r == DigitValue(ds[0]) by { assert ds[..0] == []; }
      assert NatToString(r) == ds;
    } else if ds[0] != '0' {
      assert ds[..1] == [ds[0]];
      assert r == DigitValue(ds[0]) * 10 + DigitValue(ds[1]) by {
        assert DigitsValue(ds[..1]) == DigitValue(ds[0]) by { assert ds[..1][..0] == []; }
      }
      assert NatToString(r / 10) == [ds[0]];
      assert NatToString(r) == ds;
    }
  }
}
