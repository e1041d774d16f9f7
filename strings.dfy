/** The parts of Go's `strings` and `strconv` packages that the rosary code
    relies on, written out so that their edge cases are explicit:
    `strings.Split` with a one-character separator, `strings.SplitN(s, sep, 2)`,
    `strings.Contains`, `strings.HasPrefix`, `strings.Replace(s, old, new, -1)`,
    `strings.ToLower` (ASCII letters only), `strconv.Itoa` and `strconv.Atoi`. */
module Strings {
  import opened Basics

  const MinInt64: int := -0x8000_0000_0000_0000
  const MaxInt64: int := 0x7FFF_FFFF_FFFF_FFFF

  /** `strings.Split(s, string(sep))`: the pieces between the separators.
      There is always at least one piece, even for the empty string. */
  function Split(s: string, sep: char): (parts: seq<string>)
    ensures |parts| >= 1
    ensures forall i | 0 <= i < |parts| :: sep !in parts[i]
    decreases |s|
  {
    if |s| == 0 then [""]
    else
      var rest := Split(s[1..], sep);
      if s[0] == sep then [""] + rest
      else [[s[0]] + rest[0]] + rest[1..]
  }

  /** `strings.Join(parts, string(sep))`. */
  function Join(parts: seq<string>, sep: char): (r: string)
    requires |parts| >= 1
    ensures HasPrefix(r, parts[0])
    ensures |parts| > 1 ==> |r| > |parts[0]| && r[|parts[0]|] == sep
    ensures |r| >= |parts| - 1
  {
    if |parts| == 1 then parts[0] else parts[0] + [sep] + Join(parts[1..], sep)
  }

  /** Joining the pieces again gives back the original string. */
  lemma {:induction false} JoinSplit(s: string, sep: char)
    ensures Join(Split(s, sep), sep) == s
    decreases |s|
  {
    if |s| > 0 {
      var rest := Split(s[1..], sep);
      JoinSplit(s[1..], sep);
      if s[0] == sep {
        var parts := [""] + rest;
        assert parts[1..] == rest;
        assert Join(parts, sep) == "" + [sep] + Join(rest, sep);
        assert s == [s[0]] + s[1..];
      } else {
        var parts := [[s[0]] + rest[0]] + rest[1..];
        assert Split(s, sep) == parts;
        if |rest| == 1 {
          assert Join(parts, sep) == [s[0]] + rest[0];
        } else {
          assert parts[1..] == rest[1..];
          assert Join(parts, sep) == [s[0]] + rest[0] + [sep] + Join(rest[1..], sep);
          assert Join(rest, sep) == rest[0] + [sep] + Join(rest[1..], sep);
        }
        assert s == [s[0]] + s[1..];
      }
    }
  }

  /** Splitting a string whose first part holds no separator. */
  lemma {:induction false} SplitAfterPlain(a: string, b: string, sep: char)
    requires sep !in a
    ensures Split(a + b, sep) == [a + Split(b, sep)[0]] + Split(b, sep)[1..]
    decreases |a|
  {
    if |a| == 0 {
      assert a + b == b;
      var parts := Split(b, sep);
      assert a + parts[0] == parts[0];
      assert [a + parts[0]] + parts[1..] == parts;
    } else {
      assert (a + b)[1..] == a[1..] + b;
      SplitAfterPlain(a[1..], b, sep);
      assert [a[0]] + (a[1..] + Split(b, sep)[0]) == a + Split(b, sep)[0];
    }
  }

  /** Splitting a join of separator-free pieces gives back the pieces. */
  lemma {:induction false} SplitJoin(parts: seq<string>, sep: char)
    requires |parts| >= 1
    requires forall i | 0 <= i < |parts| :: sep !in parts[i]
    ensures Split(Join(parts, sep), sep) == parts
  {
    if |parts| == 1 {
      SplitAfterPlain(parts[0], "", sep);
      var e := Split("", sep);
      assert e == [""] && e[1..] == [];
      assert parts[0] + "" == parts[0];
      assert [parts[0] + e[0]] + e[1..] == parts;
      assert Split(parts[0] + "", sep) == parts;
      assert Split(parts[0], sep) == parts;
      assert Join(parts, sep) == parts[0];
    } else {
      var tail := Join(parts[1..], sep);
      SplitJoin(parts[1..], sep);
      assert ([sep] + tail)[1..] == tail;
      assert Split([sep] + tail, sep) == [""] + parts[1..];
      assert parts[0] + [sep] + tail == parts[0] + ([sep] + tail);
      SplitAfterPlain(parts[0], [sep] + tail, sep);
      var rest := Split([sep] + tail, sep);
      assert rest[0] == "" && rest[1..] == parts[1..];
      assert parts[0] + "" == parts[0];
      assert [parts[0] + rest[0]] + rest[1..] == parts;
      assert Join(parts, sep) == parts[0] + [sep] + tail;
    }
  }

  /** The first position of `c` in `s`. */
  function IndexOf(s: string, c: char): (i: nat)
    requires c in s
    ensures i < |s| && s[i] == c && c !in s[..i]
  {
    if s[0] == c then 0
    else
      var j := IndexOf(s[1..], c);
      assert s[..j + 1] == [s[0]] + s[1..][..j];
      j + 1
  }

  /** `strings.SplitN(s, string(sep), 2)`: split at the first separator only. */
  function SplitFirst(s: string, sep: char): (pair: seq<string>)
    ensures sep !in s ==> pair == [s]
    ensures sep in s ==> |pair| == 2 && sep !in pair[0] && s == pair[0] + [sep] + pair[1]
  {
    if sep in s then
      var i := IndexOf(s, sep);
      assert s == s[..i] + [sep] + s[i + 1..];
      [s[..i], s[i + 1..]]
    else [s]
  }

  /** `strings.HasPrefix`. */
  predicate HasPrefix(s: string, prefix: string) {
    |prefix| <= |s| && s[..|prefix|] == prefix
  }

  /** `s` starts with `prefix` exactly when it is `prefix` followed by something. */
  lemma PrefixSplit(s: string, prefix: string)
    ensures HasPrefix(s, prefix) <==> |prefix| <= |s| && s == prefix + s[|prefix|..]
    ensures HasPrefix(prefix + s, prefix)
  {
    assert (prefix + s)[..|prefix|] == prefix;
  }

  /** `strings.Contains`: `t` occurs somewhere in `s` (the empty string occurs everywhere). */
  predicate Contains(s: string, t: string)
    decreases |s|
  {
    HasPrefix(s, t) || (|s| > 0 && Contains(s[1..], t))
  }

  /** `t` occurs in `s` exactly when some suffix of `s` starts with it; so
      it is never longer than `s`. */
  lemma {:induction false} ContainsAt(s: string, t: string)
    ensures Contains(s, t) <==> exists i | 0 <= i <= |s| :: HasPrefix(s[i..], t)
    ensures Contains(s, t) ==> |t| <= |s|
    decreases |s|
  {
    assert s[0..] == s;
    if |s| > 0 {
      ContainsAt(s[1..], t);
      assert forall i | 1 <= i <= |s| :: s[i..] == s[1..][i - 1..];
    }
  }

  /** `strings.Replace(s, pat, rep, -1)`: every non-overlapping occurrence of
      `pat`, scanning from the left, is replaced by `rep`. */
  function ReplaceAll(s: string, pat: string, rep: string): (r: string)
    requires |pat| > 0
    ensures !Contains(s, pat) ==> r == s
    ensures |rep| == |pat| ==> |r| == |s|
    decreases |s|
  {
    if |s| == 0 then ""
    else if HasPrefix(s, pat) then rep + ReplaceAll(s[|pat|..], pat, rep)
    else [s[0]] + ReplaceAll(s[1..], pat, rep)
  }

  /** Replacing brings in no character that is neither in the string nor in
      the replacement. */
  lemma {:induction false} ReplacedChars(s: string, pat: string, rep: string)
    requires |pat| > 0
    ensures forall j | 0 <= j < |ReplaceAll(s, pat, rep)| :: ReplaceAll(s, pat, rep)[j] in s || ReplaceAll(s, pat, rep)[j] in rep
    decreases |s|
  {
    if |s| > 0 {
      var r := ReplaceAll(s, pat, rep);
      if HasPrefix(s, pat) {
        var rest := ReplaceAll(s[|pat|..], pat, rep);
        ReplacedChars(s[|pat|..], pat, rep);
        forall j | 0 <= j < |r|
          ensures r[j] in s || r[j] in rep
        {
          if j >= |rep| {
            assert r[j] == rest[j - |rep|];
            assert rest[j - |rep|] in s[|pat|..] || rest[j - |rep|] in rep;
          }
        }
      } else {
        var rest := ReplaceAll(s[1..], pat, rep);
        ReplacedChars(s[1..], pat, rep);
        forall j | 0 <= j < |r|
          ensures r[j] in s || r[j] in rep
        {
          if j >= 1 {
            assert r[j] == rest[j - 1];
            assert rest[j - 1] in s[1..] || rest[j - 1] in rep;
          }
        }
      }
    }
  }

  /** A string without the separator is a single piece. */
  lemma SplitNoSep(s: string, sep: char)
    requires sep !in s
    ensures Split(s, sep) == [s]
  {
    SplitJoin([s], sep);
  }

  /** A prefix free of the pattern's first character is copied through unchanged. */
  lemma {:induction false} ReplaceSkip(x: string, y: string, pat: string, rep: string)
    requires |pat| > 0 && pat[0] !in x
    ensures ReplaceAll(x + y, pat, rep) == x + ReplaceAll(y, pat, rep)
    decreases |x|
  {
    if |x| > 0 {
      var xy := x + y;
      assert xy[0] == x[0] && xy[1..] == x[1..] + y;
      assert !HasPrefix(xy, pat);
      ReplaceSkip(x[1..], y, pat, rep);
      assert x == [x[0]] + x[1..];
    } else {
      assert x + y == y;
    }
  }

  /** `c` occurs in `s` as a one-character string exactly when it is one of its characters. */
  lemma {:induction false} ContainsChar(s: string, c: char)
    ensures Contains(s, [c]) <==> c in s
    decreases |s|
  {
    if |s| > 0 {
      ContainsChar(s[1..], c);
      assert s == [s[0]] + s[1..];
      assert HasPrefix(s, [c]) <==> s[0] == c;
    }
  }

  /** Splitting at the first separator of "key<sep>value" gives key and value
      back when the key holds no separator. */
  lemma SplitFirstAt(key: string, value: string, sep: char)
    requires sep !in key
    ensures SplitFirst(key + [sep] + value, sep) == [key, value]
  {
    var s := key + [sep] + value;
    assert s[|key|] == sep;
    var i := IndexOf(s, sep);
    assert forall j | 0 <= j < |key| :: s[j] == key[j];
    assert forall j | 0 <= j < i :: s[..i][j] == s[j];
    assert i == |key|;
    assert s[..|key|] == key;
    assert s[|key| + 1..] == value;
  }

  /** What is left after removing every `c`: characters of `s`, none of them `c`. */
  predicate Remnant(r: string, s: string, c: char) {
    forall j | 0 <= j < |r| :: r[j] in s && r[j] != c
  }

  lemma {:induction false} RemovedChars(s: string, c: char)
    ensures Remnant(ReplaceAll(s, [c], ""), s, c)
    decreases |s|
  {
    if |s| > 0 {
      var rest := ReplaceAll(s[1..], [c], "");
      RemovedChars(s[1..], c);
      assert s[..1] == [s[0]];
      if s[0] == c {
        assert ReplaceAll(s, [c], "") == "" + rest;
        assert "" + rest == rest;
      } else {
        var r := [s[0]] + rest;
        assert ReplaceAll(s, [c], "") == r;
        forall j | 0 <= j < |r|
          ensures r[j] in s && r[j] != c
        {
          if j > 0 {
            assert r[j] == rest[j - 1];
            assert rest[j - 1] in s[1..];
          }
        }
      }
    }
  }

  /** Every character of every piece of a split occurs in the string split. */
  predicate PiecesFrom(parts: seq<string>, s: string) {
    forall i, j | 0 <= i < |parts| && 0 <= j < |parts[i]| :: parts[i][j] in s
  }

  lemma {:induction false} SplitChars(s: string, sep: char)
    ensures PiecesFrom(Split(s, sep), s)
    decreases |s|
  {
    if |s| > 0 {
      var rest := Split(s[1..], sep);
      SplitChars(s[1..], sep);
      var parts := Split(s, sep);
      forall i, j | 0 <= i < |parts| && 0 <= j < |parts[i]|
        ensures parts[i][j] in s
      {
        if s[0] == sep {
          assert parts[i] == rest[i - 1];
          assert rest[i - 1][j] in s[1..];
        } else if i == 0 {
          assert parts[0] == [s[0]] + rest[0];
          if j > 0 {
            assert parts[0][j] == rest[0][j - 1];
            assert rest[0][j - 1] in s[1..];
          }
        } else {
          assert parts[i] == rest[i];
          assert rest[i][j] in s[1..];
        }
      }
    }
  }

  /** Lower-casing of one character, ASCII letters only. */
  function LowerChar(c: char): char {
    if 'A' <= c <= 'Z' then (c as int + 32) as char else c
  }

  /** `strings.ToLower`, restricted to ASCII letters. */
  function ToLower(s: string): (r: string)
    ensures |r| == |s|
    ensures forall i | 0 <= i < |s| :: r[i] == LowerChar(s[i])
  {
    seq(|s|, i requires 0 <= i < |s| => LowerChar(s[i]))
  }

  /** A string that lower-casing leaves as it is. */
  predicate IsLower(s: string) {
    forall i | 0 <= i < |s| :: LowerChar(s[i]) == s[i]
  }

  /** Lower-casing is idempotent: its result is lower case. */
  lemma LowerIsLower(s: string)
    ensures IsLower(ToLower(s)) && ToLower(ToLower(s)) == ToLower(s)
  {
    var r := ToLower(s);
    forall i | 0 <= i < |r|
      ensures LowerChar(r[i]) == r[i]
    {
      assert r[i] == LowerChar(s[i]);
    }
  }

  lemma LowerFixed(s: string)
    requires IsLower(s)
    ensures ToLower(s) == s
  {
  }

  /** The pieces of a lower-case string are lower case. */
  lemma {:induction false} SplitLower(s: string, sep: char)
    requires IsLower(s)
    ensures forall i | 0 <= i < |Split(s, sep)| :: IsLower(Split(s, sep)[i])
  {
    var parts := Split(s, sep);
    SplitChars(s, sep);
    forall i, j | 0 <= i < |parts| && 0 <= j < |parts[i]|
      ensures LowerChar(parts[i][j]) == parts[i][j]
    {
      assert parts[i][j] in s;
      var k :| 0 <= k < |s| && s[k] == parts[i][j];
    }
  }

  predicate IsDigit(c: char) {
    '0' <= c <= '9'
  }

  predicate AllDigits(s: string) {
    forall i | 0 <= i < |s| :: IsDigit(s[i])
  }

  function DigitChar(d: nat): (c: char)
    requires d < 10
    ensures IsDigit(c)
  {
    ('0' as int + d) as char
  }

  /** The value of a string of decimal digits. */
  function DigitsValue(s: string): nat
    requires AllDigits(s)
  {
    if |s| == 0 then 0
    else
      assert IsDigit(s[|s| - 1]);
      DigitsValue(s[..|s| - 1]) * 10 + (s[|s| - 1] as int - '0' as int)
  }

  /** The decimal form of a natural number, without leading zeros. */
  function NatToString(n: nat): (s: string)
    ensures |s| >= 1 && AllDigits(s)
  {
    if n < 10 then [DigitChar(n)] else NatToString(n / 10) + [DigitChar(n % 10)]
  }

  /** `strconv.Itoa`: never empty, a '-' exactly for negative numbers and
      digits everywhere else. */
  function Itoa(n: int): (r: string)
    ensures |r| >= 1 && (r[0] == '-' <==> n < 0)
    ensures forall i | 1 <= i < |r| :: IsDigit(r[i])
    ensures n >= 0 ==> AllDigits(r)
  {
    if n < 0 then
      var d := NatToString(-n);
      assert forall i | 1 <= i < |d| + 1 :: ("-" + d)[i] == d[i - 1];
      "-" + d
    else NatToString(n)
  }

  /** `strconv.Atoi`: an optional sign followed by at least one decimal digit,
      within the range of a 64-bit int; anything else is an error (None). */
  function Atoi(s: string): (r: Option<int>)
    ensures r.Some? ==> MinInt64 <= r.value <= MaxInt64
    ensures r.Some? ==> |s| >= 1 && (r.value < 0 ==> s[0] == '-')
    ensures r.Some? ==> forall i | 1 <= i < |s| :: IsDigit(s[i])
    ensures |s| == 0 || !IsDigit(s[|s| - 1]) ==> r.None?
  {
    if |s| == 0 then None
    else
      var body := if s[0] == '-' || s[0] == '+' then s[1..] else s;
      if |body| == 0 || !AllDigits(body) then None
      else
        var v: int := if s[0] == '-' then 0 - DigitsValue(body) else DigitsValue(body);
        if MinInt64 <= v <= MaxInt64 then Some(v) else None
  }

  lemma {:induction false} NatToStringValue(n: nat)
    ensures DigitsValue(NatToString(n)) == n
  {
    if n >= 10 {
      var s := NatToString(n);
      NatToStringValue(n / 10);
      assert s[..|s| - 1] == NatToString(n / 10);
    }
  }

  /** A digit string in range reads as its value. */
  lemma AtoiDigits(p: string)
    requires |p| >= 1 && AllDigits(p) && DigitsValue(p) <= MaxInt64
    ensures Atoi(p) == Some(DigitsValue(p))
  {
    assert IsDigit(p[0]);
  }

  /** A '-' and a digit string in range read as the negated value. */
  lemma AtoiMinusDigits(p: string)
    requires |p| >= 1 && AllDigits(p) && MinInt64 <= 0 - DigitsValue(p)
    ensures Atoi("-" + p) == Some(0 - DigitsValue(p))
  {
    assert ("-" + p)[1..] == p;
  }

  /** `strconv.Atoi` reads back what `strconv.Itoa` writes. */
  lemma {:induction false} AtoiItoa(n: int)
    requires MinInt64 <= n <= MaxInt64
    ensures Atoi(Itoa(n)) == Some(n)
  {
    if n < 0 {
      NatToStringValue(-n);
      AtoiMinusDigits(NatToString(-n));
    } else {
      NatToStringValue(n);
      AtoiDigits(NatToString(n));
    }
  }

  /** Distinct numbers have distinct decimal forms. */
  lemma {:induction false} ItoaInjective(a: int, b: int)
    requires Itoa(a) == Itoa(b)
    ensures a == b
  {
    if a < 0 {
      assert Itoa(a)[1..] == NatToString(-a);
      assert Itoa(b)[1..] == NatToString(-b);
      NatToStringInjective(-a, -b);
    } else {
      NatToStringInjective(a, b);
    }
  }

  lemma NatToStringInjective(x: nat, y: nat)
    requires NatToString(x) == NatToString(y)
    ensures x == y
  {
    NatToStringValue(x);
    NatToStringValue(y);
  }

  /** `n` copies of '0'. */
  function Zeros(n: nat): (z: string)
    ensures |z| == n && forall i | 0 <= i < n :: z[i] == '0'
  {
    seq(n, i => '0')
  }

  /** Left-pad `s` with '0' to at least `width` characters; never truncates. */
  function ZeroPad(s: string, width: int): (r: string)
    ensures |r| == if |s| >= width then |s| else width
    ensures r[|r| - |s|..] == s
    ensures forall i | 0 <= i < |r| - |s| :: r[i] == '0'
  {
    if |s| >= width then s else Zeros(width - |s|) + s
  }

  /** Leading zeros do not change the value of a digit string. */
  lemma {:induction false} LeadingZerosValue(z: string, s: string)
    requires forall i | 0 <= i < |z| :: z[i] == '0'
    requires AllDigits(s)
    ensures AllDigits(z + s) && DigitsValue(z + s) == DigitsValue(s)
    decreases |s|
  {
    if |s| == 0 {
      assert z + s == z;
      ZerosValue(z);
    } else {
      var t := z + s;
      assert t[..|t| - 1] == z + s[..|s| - 1];
      LeadingZerosValue(z, s[..|s| - 1]);
    }
  }

  lemma {:induction false} ZerosValue(z: string)
    requires forall i | 0 <= i < |z| :: z[i] == '0'
    ensures AllDigits(z) && DigitsValue(z) == 0
    decreases |z|
  {
    if |z| > 0 {
      ZerosValue(z[..|z| - 1]);
    }
  }
}
