/**
 * The parts of `java.lang.String` and `java.lang.Integer` the core relies on:
 * `split` with a one-character separator, `trim`, `compareTo`, decimal formatting of integers
 * (`Integer.toString`, `%d`) and `Integer.parseInt`.
 */
module JavaStrings {
  import opened Wrappers
  import opened JavaNumbers

  // ---------------------------------------------------------------------------------------------
  // trim

  /** `String.trim` removes every character up to and including U+0020 from both ends. */
  predicate IsTrimmable(c: char) { c <= ' ' }

  predicate AllTrimmable(s: string) { forall i :: 0 <= i < |s| ==> IsTrimmable(s[i]) }

  /** Neither end of `s` can be trimmed. */
  predicate IsTrimmed(s: string) { s == [] || (!IsTrimmable(s[0]) && !IsTrimmable(s[|s| - 1])) }

  /** The number of trimmable characters at the start of `s`. */
  function LeadingCount(s: string): (n: nat)
    ensures n <= |s| && forall i :: 0 <= i < n ==> IsTrimmable(s[i])
    ensures n < |s| ==> !IsTrimmable(s[n])
  {
    if s != [] && IsTrimmable(s[0]) then LeadingCount(s[1..]) + 1 else 0
  }

  /** The number of trimmable characters at the end of `s`. */
  function TrailingCount(s: string): (n: nat)
    ensures n <= |s| && forall i :: |s| - n <= i < |s| ==> IsTrimmable(s[i])
    ensures n < |s| ==> !IsTrimmable(s[|s| - n - 1])
  {
    if s != [] && IsTrimmable(s[|s| - 1]) then TrailingCount(s[..|s| - 1]) + 1 else 0
  }

  /**
   * `String.trim`: what is left of `s` once the trimmable characters at both ends are cut off
   * (nothing, when every character is trimmable).
   */
  function Trim(s: string): (r: string)
    ensures IsTrimmed(r)
  {
    var lead := LeadingCount(s);
    if lead == |s| then ""
    else
      var trail := TrailingCount(s);
      s[lead..|s| - trail]
  }

  /** Trimming text that is already trimmed changes nothing. */
  lemma TrimTrimmed(s: string)
    requires IsTrimmed(s)
    ensures Trim(s) == s
  {
    if s != [] {
      var lead := LeadingCount(s);
      var trail := TrailingCount(s);
    }
  }

  /** Trimming a trimmed, non-empty text followed by trimmable characters gives the text back. */
  lemma TrimPadded(x: string, pad: string)
    requires x != [] && IsTrimmed(x) && AllTrimmable(pad)
    ensures Trim(x + pad) == x
  {
    var s := x + pad;
    var lead := LeadingCount(s);
    var trail := TrailingCount(s);
    assert s[..|s| - |pad|] == x;
  }

  /** Trimming only removes characters, so a character absent from `s` is absent from `Trim(s)`. */
  lemma TrimKeepsOut(s: string, c: char)
    requires c !in s
    ensures c !in Trim(s)
  {
    var lead := LeadingCount(s);
    if lead < |s| {
      var t := Trim(s);
      var trail := TrailingCount(s);
      assert forall i :: 0 <= i < |t| ==> t[i] == s[lead + i];
    }
  }

  // ---------------------------------------------------------------------------------------------
  // split

  /** The pieces of `sep`-separated elements joined with `sep` between them. */
  function Join(ls: seq<string>, sep: char): string
  {
    if |ls| == 0 then ""
    else if |ls| == 1 then ls[0]
    else ls[0] + [sep] + Join(ls[1..], sep)
  }

  /** Every element followed by `sep`: what a `StringBuilder` loop appending element and separator builds. */
  function Terminated(ls: seq<string>, sep: char): string
  {
    if ls == [] then "" else ls[0] + [sep] + Terminated(ls[1..], sep)
  }

  /** All the pieces between occurrences of `sep`, including empty ones; `Join` is its inverse. */
  function Pieces(s: string, sep: char): (r: seq<string>)
    ensures |r| >= 1
    decreases |s|
  {
    if s == [] then [""]
    else
      var rest := Pieces(s[1..], sep);
      if s[0] == sep then [""] + rest
      else [[s[0]] + rest[0]] + rest[1..]
  }

  /** No piece contains the separator. */
  lemma {:induction false} PiecesAreSeparatorFree(s: string, sep: char)
    ensures forall i :: 0 <= i < |Pieces(s, sep)| ==> sep !in Pieces(s, sep)[i]
    decreases |s|
  {
    if s != [] {
      PiecesAreSeparatorFree(s[1..], sep);
      var rest := Pieces(s[1..], sep);
      var r := Pieces(s, sep);
      if s[0] != sep {
        forall i | 0 <= i < |r| ensures sep !in r[i] {
          if i == 0 {
            assert r[0] == [s[0]] + rest[0];
          } else {
            assert r[i] == rest[i];
          }
        }
      } else {
        forall i | 0 <= i < |r| ensures sep !in r[i] {
          if i > 0 { assert r[i] == rest[i - 1]; }
        }
      }
    }
  }

  lemma JoinCons(x: string, ls: seq<string>, sep: char)
    requires |ls| >= 1
    ensures Join([x] + ls, sep) == x + [sep] + Join(ls, sep)
  {
    assert ([x] + ls)[1..] == ls;
  }

  /** Joining two or more elements puts a separator in the text. */
  lemma JoinHasSeparator(ls: seq<string>, sep: char)
    requires |ls| >= 2
    ensures sep in Join(ls, sep)
  {
    var t := ls[0] + [sep] + Join(ls[1..], sep);
    assert t[|ls[0]|] == sep;
  }

  lemma JoinPrependChar(c: char, ls: seq<string>, sep: char)
    requires |ls| >= 1
    ensures Join([[c] + ls[0]] + ls[1..], sep) == [c] + Join(ls, sep)
  {
    if |ls| > 1 {
      JoinCons([c] + ls[0], ls[1..], sep);
      JoinCons(ls[0], ls[1..], sep);
      assert [ls[0]] + ls[1..] == ls;
    }
  }

  /** Joining the pieces of `s` with the separator gives `s` back. */
  lemma {:induction false} JoinOfPieces(s: string, sep: char)
    ensures Join(Pieces(s, sep), sep) == s
    decreases |s|
  {
    if s != [] {
      JoinOfPieces(s[1..], sep);
      var rest := Pieces(s[1..], sep);
      if s[0] == sep {
        JoinCons("", rest, sep);
      } else {
        JoinPrependChar(s[0], rest, sep);
      }
      assert s == [s[0]] + s[1..];
    }
  }

  /** Removes the empty strings at the end of `ls`, as `split` with limit 0 does. */
  function DropTrailingEmpty(ls: seq<string>): (r: seq<string>)
    ensures |r| <= |ls| && r == ls[..|r|]
    ensures r == [] || r[|r| - 1] != ""
    ensures forall i :: |r| <= i < |ls| ==> ls[i] == ""
  {
    if ls != [] && ls[|ls| - 1] == "" then DropTrailingEmpty(ls[..|ls| - 1]) else ls
  }

  /**
   * `s.split(sep)` for a separator that is one literal character: without an occurrence of `sep`
   * it is `[s]` (so `"".split(sep)` is `[""]`); otherwise the pieces between occurrences with the
   * empty pieces at the end removed (so splitting only separators gives `[]`).
   */
  function Split(s: string, sep: char): (r: seq<string>)
    ensures sep !in s ==> r == [s]
    ensures sep in s ==> r == DropTrailingEmpty(Pieces(s, sep))
    ensures forall i :: 0 <= i < |r| ==> sep !in r[i]
  {
    if sep !in s then [s]
    else
      PiecesAreSeparatorFree(s, sep);
      var r := DropTrailingEmpty(Pieces(s, sep));
      assert forall i :: 0 <= i < |r| ==> r[i] == Pieces(s, sep)[i];
      r
  }

  lemma {:induction false} PiecesWithoutSeparator(a: string, sep: char)
    requires sep !in a
    ensures Pieces(a, sep) == [a]
    decreases |a|
  {
    if a != [] {
      PiecesWithoutSeparator(a[1..], sep);
      assert a == [a[0]] + a[1..];
    }
  }

  lemma {:induction false} PiecesAfterElement(a: string, sep: char, rest: string)
    requires sep !in a
    ensures Pieces(a + [sep] + rest, sep) == [a] + Pieces(rest, sep)
    decreases |a|
  {
    var s := a + [sep] + rest;
    if a == [] {
      assert s[1..] == rest;
    } else {
      assert s[1..] == a[1..] + [sep] + rest;
      PiecesAfterElement(a[1..], sep, rest);
      assert [a[0]] + a[1..] == a;
    }
  }

  /** Splitting what `Join` built gives back the elements (the other half of the inverse pair). */
  lemma {:induction false} PiecesOfJoin(ls: seq<string>, sep: char)
    requires |ls| >= 1
    requires forall i :: 0 <= i < |ls| ==> sep !in ls[i]
    ensures Pieces(Join(ls, sep), sep) == ls
  {
    if |ls| == 1 {
      PiecesWithoutSeparator(ls[0], sep);
    } else {
      PiecesOfJoin(ls[1..], sep);
      PiecesAfterElement(ls[0], sep, Join(ls[1..], sep));
      assert [ls[0]] + ls[1..] == ls;
    }
  }

  lemma {:induction false} TerminatedAsJoin(ls: seq<string>, sep: char)
    requires |ls| >= 1
    ensures Terminated(ls, sep) == Join(ls + [""], sep)
    ensures Terminated(ls, sep) == Join(ls, sep) + [sep]
  {
    if |ls| == 1 {
      assert Terminated(ls[1..], sep) == "";
      assert (ls + [""])[1..] == [""];
    } else {
      TerminatedAsJoin(ls[1..], sep);
      assert (ls + [""])[1..] == ls[1..] + [""];
    }
  }

  /**
   * Split inverts Join when no element contains the separator and the last element is not empty
   * (an empty last element would be dropped as a trailing empty string).
   */
  lemma SplitOfJoin(ls: seq<string>, sep: char)
    requires |ls| >= 1 && ls[|ls| - 1] != ""
    requires forall i :: 0 <= i < |ls| ==> sep !in ls[i]
    ensures Split(Join(ls, sep), sep) == ls
  {
    var s := Join(ls, sep);
    PiecesOfJoin(ls, sep);
    if sep !in s {
      PiecesWithoutSeparator(s, sep);
    }
  }

  /** The same for text in which every element is followed by the separator. */
  lemma SplitOfTerminated(ls: seq<string>, sep: char)
    requires |ls| >= 1 && ls[|ls| - 1] != ""
    requires forall i :: 0 <= i < |ls| ==> sep !in ls[i]
    ensures Split(Terminated(ls, sep), sep) == ls
  {
    TerminatedAsJoin(ls, sep);
    var ls' := ls + [""];
    var s := Join(ls', sep);
    assert Terminated(ls, sep) == s;
    assert forall i :: 0 <= i < |ls'| ==> sep !in ls'[i] by {
      forall i | 0 <= i < |ls'| ensures sep !in ls'[i] {
        if i < |ls| { assert ls'[i] == ls[i]; }
      }
    }
    PiecesOfJoin(ls', sep);
    JoinHasSeparator(ls', sep);
    DropOneTrailingEmpty(ls);
  }

  /** Dropping the trailing empty strings of `ls + [""]` when `ls` does not end in one gives `ls`. */
  lemma DropOneTrailingEmpty(ls: seq<string>)
    requires |ls| >= 1 && ls[|ls| - 1] != ""
    ensures DropTrailingEmpty(ls + [""]) == ls
  {
    var ls' := ls + [""];
    assert ls'[..|ls'| - 1] == ls;
  }

  /** A join ends with the last element's last character, and starts with the first element's first. */
  lemma {:induction false} JoinEnds(ls: seq<string>, sep: char)
    requires |ls| >= 1 && ls[|ls| - 1] != []
    ensures var j := Join(ls, sep); j != [] && j[|j| - 1] == ls[|ls| - 1][|ls[|ls| - 1]| - 1]
    ensures ls[0] != [] ==> Join(ls, sep)[0] == ls[0][0]
  {
    if |ls| > 1 {
      JoinEnds(ls[1..], sep);
      var rest := Join(ls[1..], sep);
      assert ls[1..][|ls| - 2] == ls[|ls| - 1];
      assert Join(ls, sep) == ls[0] + [sep] + rest;
    }
  }

  /** Joining elements whose first and last are non-empty and trimmed gives trimmed text. */
  lemma JoinTrimmed(ls: seq<string>, sep: char)
    requires |ls| >= 1 && ls[0] != [] && ls[|ls| - 1] != []
    requires IsTrimmed(ls[0]) && IsTrimmed(ls[|ls| - 1])
    ensures Join(ls, sep) != [] && IsTrimmed(Join(ls, sep))
  {
    JoinEnds(ls, sep);
  }

  /** `Terminated` of a longer list: what one more round of the appending loop adds. */
  lemma {:induction false} TerminatedAppend(ls: seq<string>, x: string, sep: char)
    ensures Terminated(ls + [x], sep) == Terminated(ls, sep) + x + [sep]
  {
    if ls == [] {
      assert ([x] + [])[1..] == [];
    } else {
      assert (ls + [x])[1..] == ls[1..] + [x];
      TerminatedAppend(ls[1..], x, sep);
    }
  }

  // ---------------------------------------------------------------------------------------------
  // compareTo

  /**
   * `String.compareTo`: the difference of the first differing characters, or of the lengths when
   * one string is a prefix of the other. It is 0 exactly for equal strings.
   */
  function CompareTo(a: string, b: string): (r: int)
    ensures r == 0 <==> a == b
  {
    if a == [] || b == [] then |a| - |b|
    else if a[0] != b[0] then a[0] as int - b[0] as int
    else
      assert a == [a[0]] + a[1..] && b == [b[0]] + b[1..];
      CompareTo(a[1..], b[1..])
  }

  /** Swapping the operands negates `compareTo`. */
  lemma {:induction false} CompareToAntisymmetric(a: string, b: string)
    ensures CompareTo(a, b) == -CompareTo(b, a)
  {
    if a != [] && b != [] && a[0] == b[0] {
      CompareToAntisymmetric(a[1..], b[1..]);
    }
  }

  // ---------------------------------------------------------------------------------------------
  // Decimal integers

  predicate IsDigit(c: char) { '0' <= c <= '9' }

  predicate AllDigits(s: string) { forall i :: 0 <= i < |s| ==> IsDigit(s[i]) }

  function DigitChar(d: nat): (c: char)
    requires d < 10
    ensures IsDigit(c)
  {
    "0123456789"[d]
  }

  function DigitValue(c: char): (d: nat)
    requires IsDigit(c)
    ensures d < 10
  {
    c as int - '0' as int
  }

  function NatToString(n: nat): (r: string)
    ensures |r| >= 1 && AllDigits(r)
    decreases n
  {
    if n < 10 then [DigitChar(n)] else NatToString(n / 10) + [DigitChar(n % 10)]
  }

  /** `Integer.toString`, `StringBuilder.append(int)` and `%d`: optional minus sign, then digits. */
  function IntToString(n: int): (r: string)
    ensures |r| >= 1
    ensures r[0] == '-' <==> n < 0
  {
    if n < 0 then "-" + NatToString(-n) else NatToString(n)
  }

  /** The decimal form is the digits of the magnitude, after a minus sign for a negative number. */
  lemma IntToStringShape(n: int)
    ensures n < 0 ==> IntToString(n)[1..] == NatToString(-n)
    ensures n >= 0 ==> IntToString(n) == NatToString(n)
    ensures forall i :: 0 <= i < |IntToString(n)| ==> IsDigit(IntToString(n)[i]) || IntToString(n)[i] == '-'
  {
    if n < 0 {
      var s := IntToString(n);
      assert s[1..] == NatToString(-n);
      assert forall i :: 1 <= i < |s| ==> s[i] == NatToString(-n)[i - 1];
    }
  }

  /** The value of a string of decimal digits (leading zeros allowed). */
  function DigitsValue(s: string): nat
    requires AllDigits(s)
  {
    if s == [] then 0 else DigitsValue(s[..|s| - 1]) * 10 + DigitValue(s[|s| - 1])
  }

  lemma {:induction false} NatToStringValue(n: nat)
    ensures DigitsValue(NatToString(n)) == n
    decreases n
  {
    var s := NatToString(n);
    if n >= 10 {
      NatToStringValue(n / 10);
      assert s[..|s| - 1] == NatToString(n / 10);
    }
  }

  lemma DigitCharValue(d: nat)
    requires d < 10
    ensures DigitValue(DigitChar(d)) == d
  {
    assert "0123456789"[d] as int == '0' as int + d;
  }

  datatype NumberFormatException = NumberFormatException(input: string)

  /**
   * `Integer.parseInt(s)` in radix 10: an optional `-` or `+`, then at least one digit; the value
   * must fit in an `int`. Anything else throws `NumberFormatException`.
   */
  function ParseInt(s: string): (r: Result<Int, NumberFormatException>)
    ensures r.Failure? ==> r.error == NumberFormatException(s)
  {
    if s == [] then Failure(NumberFormatException(s))
    else
      var signed := s[0] == '-' || s[0] == '+';
      var digits := if signed then s[1..] else s;
      if digits == [] || !AllDigits(digits) then Failure(NumberFormatException(s))
      else
        var magnitude: int := DigitsValue(digits);
        var v := if s[0] == '-' then -magnitude else magnitude;
        if INT_MIN <= v <= INT_MAX then Success(v) else Failure(NumberFormatException(s))
  }

  /** Parsing the decimal form of an `int` gives the `int` back. */
  lemma ParseIntToString(n: Int)
    ensures ParseInt(IntToString(n)) == Success(n)
  {
    var s := IntToString(n);
    IntToStringShape(n);
    if n < 0 {
      var m: nat := 0 - n as int;
      NatToStringValue(m);
      assert s[1..] == NatToString(m);
    } else {
      NatToStringValue(n);
      assert IsDigit(s[0]);
    }
  }

  /** What a decimal form stands for: a minus sign and digits, or digits (0 for anything else). */
  function DecimalValue(s: string): int
  {
    if |s| >= 1 && s[0] == '-' && AllDigits(s[1..]) then 0 - DigitsValue(s[1..]) as int
    else if AllDigits(s) then DigitsValue(s)
    else 0
  }

  lemma NatDecimalValue(m: nat)
    ensures DecimalValue(NatToString(m)) == m
  {
    NatToStringValue(m);
    assert IsDigit(NatToString(m)[0]);
  }

  lemma NegativeDecimalValue(m: nat)
    requires m > 0
    ensures DecimalValue("-" + NatToString(m)) == 0 - m as int
  {
    NatToStringValue(m);
    assert ("-" + NatToString(m))[1..] == NatToString(m);
  }

  /** Reading the decimal form of an integer gives the integer back. */
  lemma IntToStringValue(n: int)
    ensures DecimalValue(IntToString(n)) == n
  {
    if n < 0 {
      var m: nat := -n;
      assert IntToString(n) == "-" + NatToString(m);
      NegativeDecimalValue(m);
    } else {
      assert IntToString(n) == NatToString(n);
      NatDecimalValue(n);
    }
  }

  /** Different integers have different decimal forms. */
  lemma IntToStringInjective(a: int, b: int)
    requires IntToString(a) == IntToString(b)
    ensures a == b
  {
    IntToStringValue(a);
    IntToStringValue(b);
  }

  // ---------------------------------------------------------------------------------------------
  // Case

  /** `toUpperCase` restricted to ASCII letters. */
  function UpperAscii(s: string): (r: string)
    ensures |r| == |s|
    ensures forall i :: 0 <= i < |s| ==> r[i] == (if 'a' <= s[i] <= 'z' then (s[i] as int - 32) as char else s[i])
  {
    if s == [] then []
    else [if 'a' <= s[0] <= 'z' then (s[0] as int - 32) as char else s[0]] + UpperAscii(s[1..])
  }
}
