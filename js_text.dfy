/**
 * The host string operations the calculator relies on: the character filters
 * written as regular-expression replacements, ASCII lower-casing, substring
 * search (`String.prototype.includes`), joining, and the decimal rendering of
 * a non-negative integer by template literals.
 */
module JsText {

  /** `\d` without the `u` flag: ASCII digits only. */
  predicate IsDigit(c: char) {
    '0' <= c <= '9'
  }

  predicate AllDigits(s: string) {
    forall i :: 0 <= i < |s| ==> IsDigit(s[i])
  }

  /** Characters kept by `replace(/[^\d.-]/g, '')` (keepMinus) or `replace(/[^\d.]/g, '')`. */
  predicate Kept(c: char, keepMinus: bool) {
    IsDigit(c) || c == '.' || (keepMinus && c == '-')
  }

  /**
   * The string with every character outside the kept class removed, order
   * preserved. Its contract gives the shape of the result; `FilterContents`,
   * `FilterConcat`, `FilterDropsOther` and `FilterKeepsKept` pin it down.
   */
  function Filter(s: string, keepMinus: bool): (r: string)
    ensures |r| <= |s|
    ensures forall i :: 0 <= i < |r| ==> Kept(r[i], keepMinus)
  {
    if s == [] then []
    else (if Kept(s[0], keepMinus) then [s[0]] else []) + Filter(s[1..], keepMinus)
  }

  /** Every character of the result comes from the input, and every kept character of the input is still there. */
  lemma {:induction false} FilterContents(s: string, keepMinus: bool)
    ensures forall i :: 0 <= i < |Filter(s, keepMinus)| ==> Filter(s, keepMinus)[i] in s
    ensures forall i :: 0 <= i < |s| && Kept(s[i], keepMinus) ==> s[i] in Filter(s, keepMinus)
  {
    if s != [] {
      FilterContents(s[1..], keepMinus);
      var head := if Kept(s[0], keepMinus) then [s[0]] else [];
      assert Filter(s, keepMinus) == head + Filter(s[1..], keepMinus);
      forall i | 0 <= i < |s| && Kept(s[i], keepMinus) ensures s[i] in Filter(s, keepMinus) {
        if i > 0 {
          assert s[i] == s[1..][i - 1];
        }
      }
    }
  }

  /** Filtering distributes over concatenation. */
  lemma {:induction false} FilterConcat(a: string, b: string, keepMinus: bool)
    ensures Filter(a + b, keepMinus) == Filter(a, keepMinus) + Filter(b, keepMinus)
  {
    if a != [] {
      assert (a + b)[0] == a[0] && (a + b)[1..] == a[1..] + b;
      FilterConcat(a[1..], b, keepMinus);
    } else {
      assert a + b == b;
    }
  }

  /** A single character outside the kept class is removed. */
  lemma FilterDropsOther(c: char, keepMinus: bool)
    requires !Kept(c, keepMinus)
    ensures Filter([c], keepMinus) == []
  {
    assert [c][1..] == [];
  }

  /** Filtering an already filtered string changes nothing. */
  lemma {:induction false} FilterIdempotent(s: string, keepMinus: bool)
    ensures Filter(Filter(s, keepMinus), keepMinus) == Filter(s, keepMinus)
  {
    if s != [] {
      var head := if Kept(s[0], keepMinus) then [s[0]] else [];
      FilterConcat(head, Filter(s[1..], keepMinus), keepMinus);
      FilterIdempotent(s[1..], keepMinus);
      if Kept(s[0], keepMinus) {
        assert Filter(head, keepMinus) == [s[0]] + Filter([], keepMinus);
      }
    }
  }

  /** A string made of kept characters only is its own filtering. */
  lemma {:induction false} FilterKeepsKept(s: string, keepMinus: bool)
    requires forall i :: 0 <= i < |s| ==> Kept(s[i], keepMinus)
    ensures Filter(s, keepMinus) == s
  {
    if s != [] {
      FilterKeepsKept(s[1..], keepMinus);
    }
  }

  /**
   * ASCII case mapping of `toLowerCase`: the result is never an upper-case
   * letter; an upper-case letter becomes the lower-case letter at the same
   * place in the alphabet, and every other character is unchanged.
   */
  function LowerChar(c: char): (r: char)
    ensures !('A' <= r <= 'Z')
    ensures 'A' <= c <= 'Z' ==> 'a' <= r <= 'z' && r as int - 'a' as int == c as int - 'A' as int
    ensures !('A' <= c <= 'Z') ==> r == c
  {
    if 'A' <= c <= 'Z' then (c as int + 32) as char else c
  }

  function ToLower(s: string): (r: string)
    ensures |r| == |s|
    ensures forall i :: 0 <= i < |s| ==> r[i] == LowerChar(s[i])
  {
    if s == [] then [] else [LowerChar(s[0])] + ToLower(s[1..])
  }

  /** Lower-casing twice is lower-casing once. */
  lemma ToLowerIdempotent(s: string)
    ensures ToLower(ToLower(s)) == ToLower(s)
  {
  }

  /** Substring occurrence, stated without search. */
  ghost predicate OccursAt(hay: string, needle: string, i: int) {
    0 <= i && i + |needle| <= |hay| && hay[i..i + |needle|] == needle
  }

  /** `hay.includes(needle)`, a left-to-right search; a match needs room for the needle. */
  function Includes(hay: string, needle: string): (r: bool)
    ensures r ==> |needle| <= |hay|
    decreases |hay|
  {
    if |needle| > |hay| then false
    else if hay[..|needle|] == needle then true
    else Includes(hay[1..], needle)
  }

  /** The search finds exactly the occurrences. */
  lemma {:induction false} IncludesIffOccurs(hay: string, needle: string)
    ensures Includes(hay, needle) <==> exists i :: OccursAt(hay, needle, i)
    decreases |hay|
  {
    if |needle| > |hay| {
    } else if hay[..|needle|] == needle {
      assert OccursAt(hay, needle, 0);
    } else {
      IncludesIffOccurs(hay[1..], needle);
      if Includes(hay[1..], needle) {
        var j :| OccursAt(hay[1..], needle, j);
        assert hay[j + 1..j + 1 + |needle|] == hay[1..][j..j + |needle|];
        assert OccursAt(hay, needle, j + 1);
      } else {
        forall i | OccursAt(hay, needle, i) ensures false {
          if i > 0 {
            assert hay[1..][i - 1..i - 1 + |needle|] == hay[i..i + |needle|];
            assert OccursAt(hay[1..], needle, i - 1);
          }
        }
      }
    }
  }

  /** Every string includes the empty string. */
  lemma IncludesEmpty(hay: string)
    ensures Includes(hay, "")
  {
    IncludesIffOccurs(hay, "");
    assert OccursAt(hay, "", 0);
  }

  /** `parts.join('')`. */
  function Concat(parts: seq<string>): string {
    if parts == [] then "" else parts[0] + Concat(parts[1..])
  }

  /** The joined text is empty exactly when every part is, and no shorter than any part. */
  lemma {:induction false} ConcatEmpty(parts: seq<string>)
    ensures Concat(parts) == "" <==> forall i :: 0 <= i < |parts| ==> parts[i] == ""
    ensures forall i :: 0 <= i < |parts| ==> |parts[i]| <= |Concat(parts)|
  {
    if parts != [] {
      ConcatEmpty(parts[1..]);
      assert forall i :: 1 <= i < |parts| ==> parts[i] == parts[1..][i - 1];
    }
  }

  /** Joining up to three parts is concatenating them. */
  lemma ConcatPieces(parts: seq<string>)
    requires |parts| <= 3
    ensures |parts| == 0 ==> Concat(parts) == ""
    ensures |parts| == 1 ==> Concat(parts) == parts[0]
    ensures |parts| == 2 ==> Concat(parts) == parts[0] + parts[1]
    ensures |parts| == 3 ==> Concat(parts) == parts[0] + parts[1] + parts[2]
  {
    if |parts| > 0 {
      var rest := parts[1..];
      if |rest| > 0 {
        var rest2 := rest[1..];
        if |rest2| > 0 {
          assert rest2[1..] == [];
        }
      }
    }
  }

  function DigitChar(d: nat): (c: char)
    requires d < 10
    ensures IsDigit(c)
  {
    ('0' as int + d) as char
  }

  /** `${n}` for a non-negative integer below 10^21: its decimal digits, no leading zero. */
  function NatText(n: nat): (r: string)
    ensures |r| > 0 && AllDigits(r)
    ensures |r| > 1 ==> r[0] != '0'
  {
    if n < 10 then [DigitChar(n)] else NatText(n / 10) + [DigitChar(n % 10)]
  }

  /** Multiplying by ten appends a zero digit. */
  lemma NatTextTimesTen(n: nat)
    requires n > 0
    ensures NatText(n * 10) == NatText(n) + "0"
  {
  }
}
