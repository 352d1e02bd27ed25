/** The Python string operations the core relies on: `str.split("\n")`,
    `sep.join(...)`, `str.strip()`, `str.lower()`, `str(int)` and `in` on
    strings, written out on `seq<char>`. */
module Text {

  /** Python's `str.isspace()` for a single character. */
  predicate IsSpace(c: char)
  {
    var n := c as int;
    n == 0x20 || (0x09 <= n <= 0x0d) || (0x1c <= n <= 0x1f) || n == 0x85 || n == 0xa0
    || n == 0x1680 || (0x2000 <= n <= 0x200a) || n == 0x2028 || n == 0x2029
    || n == 0x202f || n == 0x205f || n == 0x3000
  }

  /** `sep.join(parts)`. */
  function Join(parts: seq<string>, sep: string): string
  {
    if |parts| == 0 then ""
    else if |parts| == 1 then parts[0]
    else parts[0] + sep + Join(parts[1..], sep)
  }

  /** `"".join(parts)`. */
  function Concat(parts: seq<string>): string
  {
    if parts == [] then "" else parts[0] + Concat(parts[1..])
  }

  /** `s.split(c)` for a one-character separator: always at least one piece,
      no piece holds the separator, and joining the pieces gives `s` back. */
  function Split(s: string, c: char): (parts: seq<string>)
    ensures |parts| >= 1
    ensures forall i :: 0 <= i < |parts| ==> c !in parts[i]
    ensures Join(parts, [c]) == s
  {
    if s == [] then [[]]
    else
      var rest := Split(s[1..], c);
      if s[0] == c then
        assert Join([[]] + rest, [c]) == [c] + Join(rest, [c]) by {
          assert ([[]] + rest)[1..] == rest;
        }
        [[]] + rest
      else
        var parts := [[s[0]] + rest[0]] + rest[1..];
        assert Join(parts, [c]) == [s[0]] + Join(rest, [c]) by {
          if |rest| > 1 {
            assert parts[1..] == rest[1..];
          }
        }
        parts
  }

  /** Splitting on `c` undoes joining with `c`, when no part holds `c`. */
  lemma {:induction false} SplitJoin(parts: seq<string>, c: char)
    requires |parts| >= 1
    requires forall i :: 0 <= i < |parts| ==> c !in parts[i]
    ensures Split(Join(parts, [c]), c) == parts
  {
    if |parts| == 1 {
      SplitNoSeparator(parts[0], [], c);
    } else {
      SplitJoin(parts[1..], c);
      SplitNoSeparator(parts[0], [c] + Join(parts[1..], [c]), c);
      assert parts[0] + [c] + Join(parts[1..], [c]) == parts[0] + ([c] + Join(parts[1..], [c]));
      assert ([c] + Join(parts[1..], [c]))[1..] == Join(parts[1..], [c]);
      assert [parts[0]] + parts[1..] == parts;
    }
  }

  /** A separator-free prefix becomes the first piece, whatever follows. */
  lemma {:induction false} SplitNoSeparator(p: string, tail: string, c: char)
    requires c !in p
    ensures tail == [] ==> Split(p + tail, c) == [p]
    ensures tail != [] && tail[0] == c ==> Split(p + tail, c) == [p] + Split(tail[1..], c)
  {
    if p == [] {
      assert p + tail == tail;
    } else {
      SplitNoSeparator(p[1..], tail, c);
      assert (p + tail)[1..] == p[1..] + tail;
      assert [p[0]] + p[1..] == p;
    }
  }

  /** `s.lstrip()`. */
  function StripStart(s: string): string
  {
    if s != [] && IsSpace(s[0]) then StripStart(s[1..]) else s
  }

  /** `s.rstrip()`. */
  function StripEnd(s: string): string
  {
    if s != [] && IsSpace(s[|s| - 1]) then StripEnd(s[..|s| - 1]) else s
  }

  /** A string with no whitespace at either end. */
  predicate Stripped(s: string)
  {
    s == [] || (!IsSpace(s[0]) && !IsSpace(s[|s| - 1]))
  }

  /** `s.strip()`: the result has no whitespace at either end and is a
      slice of `s`, so it holds no character `s` does not hold. */
  function Strip(s: string): (r: string)
    ensures Stripped(r)
    ensures forall c :: c in r ==> c in s
  {
    StripEndFacts(StripStart(s));
    StripStartFacts(s);
    StripEnd(StripStart(s))
  }

  lemma {:induction false} StripStartFacts(s: string)
    ensures StripStart(s) == [] || !IsSpace(StripStart(s)[0])
    ensures forall c :: c in StripStart(s) ==> c in s
  {
    if s != [] && IsSpace(s[0]) {
      StripStartFacts(s[1..]);
      forall c | c in StripStart(s[1..]) ensures c in s {
        assert c in s[1..];
      }
    }
  }

  lemma {:induction false} StripEndFacts(s: string)
    ensures Stripped(s) ==> StripEnd(s) == s
    ensures StripEnd(s) == [] || !IsSpace(StripEnd(s)[|StripEnd(s)| - 1])
    ensures s != [] && !IsSpace(s[0]) ==> StripEnd(s) != [] && StripEnd(s)[0] == s[0]
    ensures forall c :: c in StripEnd(s) ==> c in s
  {
    if s != [] && IsSpace(s[|s| - 1]) {
      StripEndFacts(s[..|s| - 1]);
      forall c | c in StripEnd(s[..|s| - 1]) ensures c in s {
        assert c in s[..|s| - 1];
      }
    }
  }

  /** Stripping a string that has no whitespace at either end changes nothing. */
  lemma StripStripped(s: string)
    requires Stripped(s)
    ensures Strip(s) == s
  {
    StripEndFacts(s);
  }

  /** `sub in s`. */
  predicate Contains(s: string, sub: string)
  {
    sub <= s || (s != [] && Contains(s[1..], sub))
  }

  /** `c.lower()` on ASCII letters. */
  function LowerChar(c: char): char
  {
    if 'A' <= c <= 'Z' then (c as int + 32) as char else c
  }

  /** `c.upper()` on ASCII letters. */
  function UpperChar(c: char): char
  {
    if 'a' <= c <= 'z' then (c as int - 32) as char else c
  }

  /** `s.lower()` on ASCII letters. */
  function Lower(s: string): (r: string)
    ensures |r| == |s|
    ensures forall i :: 0 <= i < |s| ==> r[i] == LowerChar(s[i])
  {
    if s == [] then [] else [LowerChar(s[0])] + Lower(s[1..])
  }

  /** `s.upper()` on ASCII letters. */
  function Upper(s: string): (r: string)
    ensures |r| == |s|
    ensures forall i :: 0 <= i < |s| ==> r[i] == UpperChar(s[i])
  {
    if s == [] then [] else [UpperChar(s[0])] + Upper(s[1..])
  }

  /** Upper-casing first and then lower-casing gives the lower-case form. */
  lemma LowerOfUpper(s: string)
    ensures Lower(Upper(s)) == Lower(s)
  {
    forall i | 0 <= i < |s| ensures Lower(Upper(s))[i] == Lower(s)[i] {
      var c := s[i];
      if 'a' <= c <= 'z' {
        assert UpperChar(c) as int == c as int - 32;
      }
    }
  }

  /** The decimal digit `d`. */
  function DigitChar(d: nat): char
    requires d < 10
  {
    (48 + d) as char
  }

  /** The value of a decimal digit character. */
  function DigitValue(c: char): nat
  {
    if '0' <= c <= '9' then c as int - 48 else 0
  }

  /** `str(n)` for a natural number: decimal digits, most significant first. */
  function NatToString(n: nat): (r: string)
    ensures |r| >= 1
    ensures forall i :: 0 <= i < |r| ==> '0' <= r[i] <= '9'
    decreases n
  {
    if n < 10 then [DigitChar(n)] else NatToString(n / 10) + [DigitChar(n % 10)]
  }

  /** `int(s)` for a string of decimal digits. */
  function ParseNat(s: string): nat
  {
    if s == [] then 0 else ParseNat(s[..|s| - 1]) * 10 + DigitValue(s[|s| - 1])
  }

  /** `str(i)` for any integer. */
  function IntToString(i: int): string
  {
    if i < 0 then "-" + NatToString(-i) else NatToString(i)
  }

  /** Reading back the digits of `str(n)` gives `n`. */
  lemma {:induction false} ParseNatToString(n: nat)
    ensures ParseNat(NatToString(n)) == n
    decreases n
  {
    if n >= 10 {
      ParseNatToString(n / 10);
      var s := NatToString(n);
      assert s[..|s| - 1] == NatToString(n / 10);
    }
  }

  /** Distinct integers have distinct decimal renderings, so `str(user_id)`
      is a faithful key. */
  lemma IntToStringInjective(a: int, b: int)
    requires IntToString(a) == IntToString(b)
    ensures a == b
  {
    LeadingMinus(a);
    LeadingMinus(b);
    var x, y := NatToString(if a < 0 then -a else a), NatToString(if b < 0 then -b else b);
    if a < 0 {
      assert x == IntToString(a)[1..] == IntToString(b)[1..] == y;
    }
    assert x == y;
    ParseNatToString(if a < 0 then -a else a);
    ParseNatToString(if b < 0 then -b else b);
  }

  /** `str(i)` starts with a minus sign exactly for negative `i`. */
  lemma LeadingMinus(i: int)
    ensures |IntToString(i)| >= 1
    ensures IntToString(i)[0] == '-' <==> i < 0
  {
  }
}
