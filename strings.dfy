/**
 * The Python string builtins that the codec and the server rely on:
 * `str.count`, `str.split`, `str.replace(" ", "")`, slicing `s[0:stop]`,
 * `str(int)`, `int(str)` and `str.isnumeric`, plus the accumulate-then-trim
 * idiom the sources use to join fields.
 */
module Strings {
  import opened Wrappers

  // ---------------------------------------------------------------------
  // Counting, splitting and joining on a one-character delimiter
  // ---------------------------------------------------------------------

  /** `s.count(c)`: the number of occurrences of `c` in `s`. */
  function Count(s: string, c: char): (n: nat)
    ensures n <= |s|
    ensures n == 0 <==> c !in s
  {
    if s == [] then 0 else (if s[0] == c then 1 else 0) + Count(s[1..], c)
  }

  lemma {:induction false} CountAppend(a: string, b: string, c: char)
    ensures Count(a + b, c) == Count(a, c) + Count(b, c)
  {
    if a != [] {
      assert (a + b)[1..] == a[1..] + b;
      CountAppend(a[1..], b, c);
    } else {
      assert a + b == b;
    }
  }

  /** `s.split(d)`: the pieces between the occurrences of `d`, in order. */
  function Split(s: string, d: char): (r: seq<string>)
    ensures |r| == Count(s, d) + 1
    ensures forall i :: 0 <= i < |r| ==> d !in r[i]
  {
    if s == [] then [""]
    else
      var rest := Split(s[1..], d);
      if s[0] == d then [""] + rest
      else [[s[0]] + rest[0]] + rest[1..]
  }

  /** The fields with `sep` between neighbours and no trailing separator. */
  function Join(fields: seq<string>, sep: string): string
  {
    if |fields| == 0 then ""
    else if |fields| == 1 then fields[0]
    else fields[0] + sep + Join(fields[1..], sep)
  }

  /**
   * What the sources' loops accumulate before trimming: every field followed
   * by `sep`, built left to right.
   */
  function Terminated(fields: seq<string>, sep: string): string
  {
    if fields == [] then ""
    else Terminated(fields[..|fields| - 1], sep) + fields[|fields| - 1] + sep
  }

  lemma {:induction false} SplitNoDelimiter(a: string, d: char)
    requires d !in a
    ensures Split(a, d) == [a]
  {
    if a != [] {
      SplitNoDelimiter(a[1..], d);
      assert [a[0]] + a[1..] == a;
    }
  }

  /** Splitting at the first delimiter peels off the text before it. */
  lemma {:induction false} SplitAfter(a: string, d: char, b: string)
    requires d !in a
    ensures Split(a + [d] + b, d) == [a] + Split(b, d)
  {
    if a == [] {
      assert a + [d] + b == [d] + b;
      assert ([d] + b)[1..] == b;
    } else {
      assert (a + [d] + b)[1..] == a[1..] + [d] + b;
      SplitAfter(a[1..], d, b);
      assert [a[0]] + a[1..] == a;
    }
  }

  /** Splitting the joined fields gives the fields back. */
  lemma {:induction false} SplitJoin(fields: seq<string>, d: char)
    requires |fields| > 0
    requires forall i :: 0 <= i < |fields| ==> d !in fields[i]
    ensures Split(Join(fields, [d]), d) == fields
  {
    if |fields| == 1 {
      SplitNoDelimiter(fields[0], d);
    } else {
      SplitJoin(fields[1..], d);
      SplitAfter(fields[0], d, Join(fields[1..], [d]));
      assert [fields[0]] + fields[1..] == fields;
    }
  }

  /** Prepending a character to the first field prepends it to the join. */
  lemma JoinExtendFirst(c: char, fields: seq<string>, sep: string)
    requires |fields| > 0
    ensures Join([[c] + fields[0]] + fields[1..], sep) == [c] + Join(fields, sep)
  {
    var r := [[c] + fields[0]] + fields[1..];
    if |fields| > 1 {
      assert r[1..] == fields[1..];
    }
  }

  /** Joining the pieces of a split gives the text back. */
  lemma {:induction false} JoinSplit(s: string, d: char)
    ensures Join(Split(s, d), [d]) == s
  {
    if s != [] {
      var rest := Split(s[1..], d);
      JoinSplit(s[1..], d);
      if s[0] == d {
        assert ([""] + rest)[1..] == rest;
      } else {
        JoinExtendFirst(s[0], rest, [d]);
      }
      assert [s[0]] + s[1..] == s;
    }
  }

  /** A join of delimiter-free fields contains exactly one delimiter between each pair. */
  lemma {:induction false} CountJoin(fields: seq<string>, d: char)
    requires |fields| > 0
    requires forall i :: 0 <= i < |fields| ==> d !in fields[i]
    ensures Count(Join(fields, [d]), d) == |fields| - 1
  {
    if |fields| > 1 {
      CountJoin(fields[1..], d);
      CountAppend(fields[0], [d], d);
      CountAppend(fields[0] + [d], Join(fields[1..], [d]), d);
      assert Count([d], d) == 1;
    }
  }

  lemma {:induction false} JoinAppend(fields: seq<string>, x: string, sep: string)
    requires |fields| > 0
    ensures Join(fields + [x], sep) == Join(fields, sep) + sep + x
  {
    if |fields| == 1 {
      assert (fields + [x])[1..] == [x];
    } else {
      assert (fields + [x])[1..] == fields[1..] + [x];
      JoinAppend(fields[1..], x, sep);
    }
  }

  /** The accumulated text is the join plus one trailing separator. */
  lemma {:induction false} TerminatedIsJoin(fields: seq<string>, sep: string)
    ensures fields == [] ==> Terminated(fields, sep) == ""
    ensures fields != [] ==> Terminated(fields, sep) == Join(fields, sep) + sep
  {
    if |fields| > 1 {
      var init := fields[..|fields| - 1];
      TerminatedIsJoin(init, sep);
      JoinAppend(init, fields[|fields| - 1], sep);
      assert init + [fields[|fields| - 1]] == fields;
    }
  }

  // ---------------------------------------------------------------------
  // Slicing and space removal
  // ---------------------------------------------------------------------

  /** Python's `s[0:stop]`: a negative stop counts from the end; out of range clamps. */
  function SliceTo(s: string, stop: int): (r: string)
    ensures |r| <= |s|
    ensures r == s[..|r|]
  {
    if stop < 0 then (if |s| + stop < 0 then "" else s[..|s| + stop])
    else if stop > |s| then s
    else s[..stop]
  }

  /** Dropping the trailing separator from the accumulated text leaves the join. */
  lemma TrimTerminated(fields: seq<string>, sep: string)
    requires |sep| > 0
    ensures SliceTo(Terminated(fields, sep), -|sep|) == Join(fields, sep)
  {
    TerminatedIsJoin(fields, sep);
    if fields != [] {
      var j := Join(fields, sep);
      assert (j + sep)[..|j|] == j;
    }
  }

  /** `s.replace(" ", "")`. */
  function RemoveSpaces(s: string): (r: string)
    ensures ' ' !in r
    ensures |r| <= |s|
  {
    if s == [] then ""
    else if s[0] == ' ' then RemoveSpaces(s[1..])
    else [s[0]] + RemoveSpaces(s[1..])
  }

  lemma {:induction false} RemoveSpacesAppend(a: string, b: string)
    ensures RemoveSpaces(a + b) == RemoveSpaces(a) + RemoveSpaces(b)
  {
    if a == [] {
      assert a + b == b;
    } else {
      assert (a + b)[1..] == a[1..] + b;
      RemoveSpacesAppend(a[1..], b);
    }
  }

  lemma {:induction false} RemoveSpacesKeeps(s: string)
    requires ' ' !in s
    ensures RemoveSpaces(s) == s
  {
    if s != [] {
      RemoveSpacesKeeps(s[1..]);
    }
  }

  lemma {:induction false} RemoveSpacesOfSpaces(s: string)
    requires forall i :: 0 <= i < |s| ==> s[i] == ' '
    ensures RemoveSpaces(s) == ""
  {
    if s != [] {
      RemoveSpacesOfSpaces(s[1..]);
    }
  }

  /** `n` spaces. */
  function Spaces(n: nat): (r: string)
    ensures |r| == n
    ensures forall i :: 0 <= i < n ==> r[i] == ' '
  {
    seq(n, _ => ' ')
  }

  // ---------------------------------------------------------------------
  // Decimal numbers
  // ---------------------------------------------------------------------

  predicate IsDigit(c: char) { '0' <= c <= '9' }

  predicate AllDigits(s: string) { forall i :: 0 <= i < |s| ==> IsDigit(s[i]) }

  /**
   * `s.isnumeric()` restricted to ASCII: non-empty and made of digits only.
   */
  predicate IsNumeric(s: string)
    ensures IsNumeric(s) ==> ' ' !in s && '-' !in s && '+' !in s
  {
    |s| > 0 && AllDigits(s)
  }

  function DigitChar(d: nat): (c: char)
    requires d < 10
    ensures IsDigit(c)
  {
    (('0' as int) + d) as char
  }

  function DigitValue(c: char): (d: nat)
    requires IsDigit(c)
    ensures d < 10 && DigitChar(d) == c
  {
    (c as int) - ('0' as int)
  }

  /** The number a string of decimal digits denotes (the empty string denotes 0). */
  function DecimalValue(s: string): nat
    requires AllDigits(s)
  {
    if s == [] then 0 else DecimalValue(s[..|s| - 1]) * 10 + DigitValue(s[|s| - 1])
  }

  /** `str(n)` for a natural number: its decimal digits, no leading zero. */
  function NatToString(n: nat): (r: string)
    ensures IsNumeric(r)
    ensures n != 0 ==> r[0] != '0'
  {
    if n < 10 then [DigitChar(n)] else NatToString(n / 10) + [DigitChar(n % 10)]
  }

  /** Reading back the digits of a natural number gives the number. */
  lemma {:induction false} NatToStringValue(n: nat)
    ensures DecimalValue(NatToString(n)) == n
  {
    if n >= 10 {
      NatToStringValue(n / 10);
      var s := NatToString(n);
      assert s[..|s| - 1] == NatToString(n / 10);
    }
  }

  /** How many digits `str(n)` has, for the lengths the codec handles. */
  lemma {:induction false} NatToStringLength(n: nat)
    requires n < 10000
    ensures |NatToString(n)| == if n < 10 then 1 else if n < 100 then 2 else if n < 1000 then 3 else 4
  {
    if n >= 10 {
      NatToStringLength(n / 10);
    }
  }

  /** Leading zeros do not change the value of a digit string. */
  lemma {:induction false} LeadingZeros(z: string, s: string)
    requires forall i :: 0 <= i < |z| ==> z[i] == '0'
    requires AllDigits(s)
    ensures AllDigits(z + s)
    ensures DecimalValue(z + s) == DecimalValue(s)
  {
    if z != [] {
      var tail := z[1..] + s;
      LeadingZeros(z[1..], s);
      assert z + s == ['0'] + tail;
      LeadingZero(tail);
      assert DecimalValue(['0'] + tail) == DecimalValue(tail);
    } else {
      assert z + s == s;
    }
  }

  lemma {:induction false} LeadingZero(s: string)
    requires AllDigits(s)
    ensures AllDigits(['0'] + s)
    ensures DecimalValue(['0'] + s) == DecimalValue(s)
  {
    if s != [] {
      var t := ['0'] + s;
      assert t[..|t| - 1] == ['0'] + s[..|s| - 1];
      LeadingZero(s[..|s| - 1]);
    }
  }

  /** `str(i)` for any integer. */
  function IntToString(i: int): (r: string)
    ensures |r| > 0
    ensures i >= 0 ==> IsNumeric(r)
    ensures i < 0 ==> r[0] == '-' && IsNumeric(r[1..])
  {
    if i < 0 then "-" + NatToString(-i) else NatToString(i)
  }

  /**
   * `int(s)` on a string: an optional sign and then decimal digits;
   * anything else raises `ValueError`, here `None`.
   */
  function ParseInt(s: string): (r: Option<int>)
    ensures r.Some? ==> |s| > 0
  {
    if |s| > 0 && (s[0] == '-' || s[0] == '+') then
      if IsNumeric(s[1..]) then
        var magnitude: int := DecimalValue(s[1..]);
        Some(if s[0] == '-' then -magnitude else magnitude)
      else None
    else if IsNumeric(s) then Some(DecimalValue(s))
    else None
  }

  lemma ParseIntOfDigits(s: string)
    requires IsNumeric(s)
    ensures ParseInt(s) == Some(DecimalValue(s))
  {
    assert IsDigit(s[0]);
  }

  lemma ParseIntOfNegative(s: string)
    requires IsNumeric(s)
    ensures ParseInt(['-'] + s) == Some(-(DecimalValue(s) as int))
  {
    var t := ['-'] + s;
    assert t[0] == '-' && t[1..] == s;
  }

  /** `int(str(i)) == i`. */
  lemma ParseIntOfIntToString(i: int)
    ensures ParseInt(IntToString(i)) == Some(i)
  {
    if i < 0 {
      NatToStringValue(-i);
      ParseIntOfNegative(NatToString(-i));
    } else {
      NatToStringValue(i);
      ParseIntOfDigits(NatToString(i));
    }
  }
}
