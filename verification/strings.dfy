/** Python string primitives the pipeline relies on: `in`, `lower`,
    `strip`, `replace`, `join`, `splitlines` and decimal rendering,
    over `string` = `seq<char>` (one `char` per Unicode code point). */
module Strings {

  /** Python's `str.isspace`: the characters `str.strip()` removes and
      that the regular expression class `\s` matches. */
  predicate IsSpace(c: char) {
    || c == ' ' || ('\t' <= c <= '\r')
    || ('\U{001C}' <= c <= '\U{001F}')
    || c == '\U{0085}' || c == '\U{00A0}' || c == '\U{1680}'
    || ('\U{2000}' <= c <= '\U{200A}')
    || c == '\U{2028}' || c == '\U{2029}' || c == '\U{202F}'
    || c == '\U{205F}' || c == '\U{3000}'
  }

  /** The line boundaries recognised by Python's `str.splitlines`
      (`\r\n` is handled as one boundary by `SplitLines`). */
  predicate IsLineBreak(c: char) {
    || c == '\n' || c == '\r' || c == '\U{000B}' || c == '\U{000C}'
    || ('\U{001C}' <= c <= '\U{001E}')
    || c == '\U{0085}' || c == '\U{2028}' || c == '\U{2029}'
  }

  predicate IsDigit(c: char) { '0' <= c <= '9' }

  predicate IsUpper(c: char) { 'A' <= c <= 'Z' }

  // ---------------------------------------------------------------------
  // Substring search (`sub in s`)
  // ---------------------------------------------------------------------

  predicate IsPrefix(p: string, s: string) {
    |p| <= |s| && s[..|p|] == p
  }

  /** Python's `sub in s`; the empty string occurs in every string. */
  predicate Contains(s: string, sub: string)
    decreases |s|
  {
    IsPrefix(sub, s) || (|s| > 0 && Contains(s[1..], sub))
  }

  /** `sub` occurs in `s` starting at index `i`. */
  predicate OccursAt(s: string, sub: string, i: int) {
    0 <= i && i + |sub| <= |s| && s[i..i + |sub|] == sub
  }

  /** `Contains` agrees with the occurrence-at-an-offset reading of `in`. */
  lemma {:induction false} ContainsIff(s: string, sub: string)
    ensures Contains(s, sub) <==> exists i :: OccursAt(s, sub, i)
    decreases |s|
  {
    if IsPrefix(sub, s) {
      assert OccursAt(s, sub, 0);
    } else if |s| == 0 {
    } else {
      ContainsIff(s[1..], sub);
      if exists i :: OccursAt(s, sub, i) {
        var i :| OccursAt(s, sub, i);
        assert i != 0;
        assert s[1..][i - 1..i - 1 + |sub|] == s[i..i + |sub|];
        assert OccursAt(s[1..], sub, i - 1);
      }
      if Contains(s[1..], sub) {
        var i :| OccursAt(s[1..], sub, i);
        assert s[1..][i..i + |sub|] == s[i + 1..i + 1 + |sub|];
        assert OccursAt(s, sub, i + 1);
      }
    }
  }

  /** An occurrence inside `s` is an occurrence inside any extension of `s`. */
  lemma ContainsAppend(s: string, t: string, sub: string)
    requires Contains(s, sub)
    ensures Contains(s + t, sub) && Contains(t + s, sub)
  {
    ContainsIff(s, sub);
    var i :| OccursAt(s, sub, i);
    assert (s + t)[i..i + |sub|] == s[i..i + |sub|];
    assert OccursAt(s + t, sub, i);
    assert (t + s)[|t| + i..|t| + i + |sub|] == s[i..i + |sub|];
    assert OccursAt(t + s, sub, |t| + i);
    ContainsIff(s + t, sub);
    ContainsIff(t + s, sub);
  }

  /** A non-empty substring starts with a character of the string. */
  lemma ContainsFirstChar(s: string, sub: string)
    requires sub != [] && Contains(s, sub)
    ensures sub[0] in s
  {
    ContainsIff(s, sub);
    var i :| OccursAt(s, sub, i);
    assert s[i] == sub[0];
  }

  lemma ContainsSelf(s: string)
    ensures Contains(s, s)
  {
    assert IsPrefix(s, s);
  }

  /** Python's `any(m in s for m in markers)`. */
  predicate AnyIn(markers: seq<string>, s: string) {
    exists i :: 0 <= i < |markers| && Contains(s, markers[i])
  }

  /** The number of entries of `keywords` that occur in `s` (a keyword
      listed twice is counted twice, as a Python loop over the list does). */
  function CountIn(keywords: seq<string>, s: string): (n: nat)
    ensures n <= |keywords|
    ensures n == 0 <==> !AnyIn(keywords, s)
  {
    if keywords == [] then 0
    else
      var rest := CountIn(keywords[1..], s);
      assert AnyIn(keywords[1..], s) ==> AnyIn(keywords, s) by {
        if AnyIn(keywords[1..], s) {
          var i :| 0 <= i < |keywords[1..]| && Contains(s, keywords[1..][i]);
          assert Contains(s, keywords[i + 1]);
        }
      }
      assert AnyIn(keywords, s) && !Contains(s, keywords[0]) ==> AnyIn(keywords[1..], s) by {
        if AnyIn(keywords, s) && !Contains(s, keywords[0]) {
          var i :| 0 <= i < |keywords| && Contains(s, keywords[i]);
          assert i != 0 && Contains(s, keywords[1..][i - 1]);
        }
      }
      (if Contains(s, keywords[0]) then 1 else 0) + rest
  }

  // ---------------------------------------------------------------------
  // Case, stripping and character removal
  // ---------------------------------------------------------------------

  function LowerChar(c: char): (r: char)
    ensures !IsUpper(r)
    ensures IsUpper(c) ==> 'a' <= r <= 'z'
    ensures !IsUpper(c) ==> r == c
  {
    if IsUpper(c) then (c as int + 32) as char else c
  }

  /** Python's `str.lower()` on the ASCII letters. */
  function Lower(s: string): (r: string)
    ensures |r| == |s|
    ensures forall i :: 0 <= i < |s| ==> r[i] == LowerChar(s[i])
  {
    if s == [] then [] else [LowerChar(s[0])] + Lower(s[1..])
  }

  lemma LowerIdempotent(s: string)
    ensures Lower(Lower(s)) == Lower(s)
  {
    assert forall i :: 0 <= i < |s| ==> Lower(Lower(s))[i] == Lower(s)[i];
  }

  lemma LowerAppend(a: string, b: string)
    ensures Lower(a + b) == Lower(a) + Lower(b)
  {
    var l := Lower(a + b);
    var r := Lower(a) + Lower(b);
    forall i | 0 <= i < |l|
      ensures l[i] == r[i]
    {
      if i < |a| {
        assert (a + b)[i] == a[i] && r[i] == Lower(a)[i];
      } else {
        assert (a + b)[i] == b[i - |a|] && r[i] == Lower(b)[i - |a|];
      }
    }
    assert l == r;
  }

  predicate NotUpper(c: char) { !IsUpper(c) }

  /** A string without upper-case letters is its own `lower()`. */
  lemma LowerNoop(s: string)
    requires forall i :: 0 <= i < |s| ==> NotUpper(s[i])
    ensures Lower(s) == s
  {
    assert forall i :: 0 <= i < |s| ==> Lower(s)[i] == s[i];
  }

  /** Keeps the characters of `s` that satisfy `keep`, in order (a
      `str.replace(c, "")` or `re.sub(class, "", s)` over single characters). */
  function Filter(s: string, keep: char -> bool): (r: string)
    ensures |r| <= |s|
    ensures forall i :: 0 <= i < |r| ==> keep(r[i])
  {
    if s == [] then []
    else (if keep(s[0]) then [s[0]] else []) + Filter(s[1..], keep)
  }

  /** Every character of `s` satisfies `p`. */
  predicate AllChars(s: string, p: char -> bool) {
    forall i :: 0 <= i < |s| ==> p(s[i])
  }

  /** Removing characters keeps a property every character had. */
  lemma FilterPreserves(s: string, keep: char -> bool, p: char -> bool)
    requires AllChars(s, p)
    ensures AllChars(Filter(s, keep), p)
  {
    if s != [] {
      FilterPreserves(s[1..], keep, p);
    }
  }

  /** Neither an upper-case nor a lower-case ASCII letter. */
  predicate NotAsciiLetter(c: char) { !IsUpper(c) && !('a' <= c <= 'z') }

  lemma PrefixLower(s: string, sub: string)
    requires AllChars(sub, NotAsciiLetter)
    ensures IsPrefix(sub, Lower(s)) <==> IsPrefix(sub, s)
  {
    if |sub| <= |s| {
      if IsPrefix(sub, s) {
        assert forall i :: 0 <= i < |sub| ==> Lower(s)[i] == sub[i] by {
          forall i | 0 <= i < |sub|
            ensures Lower(s)[i] == sub[i]
          {
            assert s[i] == sub[i] && NotAsciiLetter(sub[i]);
          }
        }
      }
      if IsPrefix(sub, Lower(s)) {
        assert forall i :: 0 <= i < |sub| ==> s[i] == sub[i] by {
          forall i | 0 <= i < |sub|
            ensures s[i] == sub[i]
          {
            assert LowerChar(s[i]) == sub[i] && NotAsciiLetter(sub[i]);
          }
        }
      }
    }
  }

  /** Lower-casing does not change whether a string without ASCII letters
      occurs. */
  lemma {:induction false} ContainsLower(s: string, sub: string)
    requires AllChars(sub, NotAsciiLetter)
    ensures Contains(Lower(s), sub) <==> Contains(s, sub)
    decreases |s|
  {
    PrefixLower(s, sub);
    if |s| > 0 {
      assert Lower(s)[1..] == Lower(s[1..]);
      ContainsLower(s[1..], sub);
    }
  }

  lemma FilterAppend(a: string, b: string, keep: char -> bool)
    ensures Filter(a + b, keep) == Filter(a, keep) + Filter(b, keep)
  {
    if a != [] {
      var head: string := if keep(a[0]) then [a[0]] else [];
      assert (a + b)[0] == a[0];
      assert (a + b)[1..] == a[1..] + b;
      FilterAppend(a[1..], b, keep);
      calc {
        Filter(a + b, keep);
        head + Filter(a[1..] + b, keep);
        head + (Filter(a[1..], keep) + Filter(b, keep));
        (head + Filter(a[1..], keep)) + Filter(b, keep);
        Filter(a, keep) + Filter(b, keep);
      }
    } else {
      assert a + b == b;
    }
  }

  /** `Filter` with a predicate that keeps every character is the identity. */
  lemma FilterKeepsAll(s: string, keep: char -> bool)
    requires forall i :: 0 <= i < |s| ==> keep(s[i])
    ensures Filter(s, keep) == s
  {
    if s != [] {
      FilterKeepsAll(s[1..], keep);
    }
  }

  /** Drops characters satisfying `drop` from the front of `s`. */
  function TrimLeft(s: string, drop: char -> bool): (r: string)
    ensures |r| <= |s| && r == s[|s| - |r|..]
    ensures r != [] ==> !drop(r[0])
    ensures forall i :: 0 <= i < |s| - |r| ==> drop(s[i])
  {
    if s != [] && drop(s[0]) then TrimLeft(s[1..], drop) else s
  }

  /** Drops characters satisfying `drop` from the back of `s`. */
  function TrimRight(s: string, drop: char -> bool): (r: string)
    ensures |r| <= |s| && r == s[..|r|]
    ensures r != [] ==> !drop(r[|r| - 1])
    ensures forall i :: |r| <= i < |s| ==> drop(s[i])
  {
    if s != [] && drop(s[|s| - 1]) then TrimRight(s[..|s| - 1], drop) else s
  }

  /** Python's `str.strip()`. */
  function Strip(s: string): (r: string)
    ensures |r| <= |s|
    ensures r != [] ==> !IsSpace(r[0]) && !IsSpace(r[|r| - 1])
    ensures (forall i :: 0 <= i < |s| ==> IsSpace(s[i])) ==> r == []
  {
    TrimRight(TrimLeft(s, IsSpace), IsSpace)
  }

  lemma SplitAt(s: string, k: nat)
    requires k <= |s|
    ensures s == s[..k] + s[k..]
  {
  }

  /** `TrimLeft` removes a prefix of `drop` characters and nothing else. */
  lemma TrimLeftParts(s: string, drop: char -> bool)
    ensures exists a :: s == a + TrimLeft(s, drop) && AllChars(a, drop)
  {
    var r := TrimLeft(s, drop);
    var k := |s| - |r|;
    var a := s[..k];
    assert r == s[k..];
    SplitAt(s, k);
    assert AllChars(a, drop) by {
      forall i | 0 <= i < |a|
        ensures drop(a[i])
      {
        assert a[i] == s[i];
      }
    }
    assert s == a + r && AllChars(a, drop);
  }

  /** `TrimRight` removes a suffix of `drop` characters and nothing else. */
  lemma TrimRightParts(s: string, drop: char -> bool)
    ensures exists b :: s == TrimRight(s, drop) + b && AllChars(b, drop)
  {
    var r := TrimRight(s, drop);
    var k := |r|;
    var b := s[k..];
    assert r == s[..k];
    SplitAt(s, k);
    assert AllChars(b, drop) by {
      forall i | 0 <= i < |b|
        ensures drop(b[i])
      {
        assert b[i] == s[k + i];
      }
    }
    assert s == r + b && AllChars(b, drop);
  }

  /** Trimming removes only `drop` characters, and only from the two ends. */
  lemma TrimParts(s: string, drop: char -> bool)
    ensures
      var r := TrimRight(TrimLeft(s, drop), drop);
      exists a, b :: s == a + r + b && AllChars(a, drop) && AllChars(b, drop)
  {
    var l := TrimLeft(s, drop);
    var r := TrimRight(l, drop);
    TrimLeftParts(s, drop);
    TrimRightParts(l, drop);
    var a :| s == a + l && AllChars(a, drop);
    var b :| l == r + b && AllChars(b, drop);
    AppendAssoc(a, r, b);
    assert s == a + r + b && AllChars(a, drop) && AllChars(b, drop);
  }

  lemma AppendAssoc(a: string, b: string, c: string)
    ensures a + (b + c) == a + b + c
  {
  }

  lemma {:induction false} TrimLeftExact(a: string, rest: string, drop: char -> bool)
    requires AllChars(a, drop) && rest != [] && !drop(rest[0])
    ensures TrimLeft(a + rest, drop) == rest
    decreases |a|
  {
    if a == [] {
      assert a + rest == rest;
    } else {
      assert (a + rest)[0] == a[0];
      assert (a + rest)[1..] == a[1..] + rest;
      TrimLeftExact(a[1..], rest, drop);
    }
  }

  lemma {:induction false} TrimRightExact(m: string, b: string, drop: char -> bool)
    requires AllChars(b, drop) && m != [] && !drop(m[|m| - 1])
    ensures TrimRight(m + b, drop) == m
    decreases |b|
  {
    if b == [] {
      assert m + b == m;
    } else {
      assert (m + b)[|m + b| - 1] == b[|b| - 1];
      assert (m + b)[..|m + b| - 1] == m + b[..|b| - 1];
      TrimRightExact(m, b[..|b| - 1], drop);
    }
  }

  /** Trimming a core that neither starts nor ends with a `drop` character,
      surrounded by `drop` characters, gives back the core. */
  lemma TrimExact(a: string, m: string, b: string, drop: char -> bool)
    requires AllChars(a, drop) && AllChars(b, drop)
    requires m != [] && !drop(m[0]) && !drop(m[|m| - 1])
    ensures TrimRight(TrimLeft(a + m + b, drop), drop) == m
  {
    assert a + m + b == a + (m + b);
    TrimLeftExact(a, m + b, drop);
    TrimRightExact(m, b, drop);
  }

  /** `strip()` removes surrounding whitespace and nothing else. */
  lemma StripParts(s: string)
    ensures exists a, b :: s == a + Strip(s) + b && AllChars(a, IsSpace) && AllChars(b, IsSpace)
  {
    TrimParts(s, IsSpace);
  }

  /** Surrounding whitespace is exactly what `strip()` takes away. */
  lemma StripExact(a: string, m: string, b: string)
    requires AllChars(a, IsSpace) && AllChars(b, IsSpace)
    requires m != [] && !IsSpace(m[0]) && !IsSpace(m[|m| - 1])
    ensures Strip(a + m + b) == m
  {
    TrimExact(a, m, b, IsSpace);
  }

  /** A string with no surrounding whitespace is its own `strip()`. */
  lemma StripNoop(s: string)
    requires s != [] ==> !IsSpace(s[0]) && !IsSpace(s[|s| - 1])
    ensures Strip(s) == s
  {
  }

  /** Membership in `chars`, as a character predicate. */
  function Member(chars: set<char>): char -> bool {
    c => c in chars
  }

  /** Python's `str.strip(chars)` for a set of characters. */
  function StripChars(s: string, chars: set<char>): (r: string)
    ensures |r| <= |s|
    ensures r != [] ==> r[0] !in chars && r[|r| - 1] !in chars
  {
    TrimRight(TrimLeft(s, Member(chars)), Member(chars))
  }

  lemma TrimLeftPreserves(s: string, drop: char -> bool, p: char -> bool)
    requires AllChars(s, p)
    ensures AllChars(TrimLeft(s, drop), p)
  {
    var r := TrimLeft(s, drop);
    assert forall i :: 0 <= i < |r| ==> r[i] == s[|s| - |r| + i];
  }

  lemma TrimRightPreserves(s: string, drop: char -> bool, p: char -> bool)
    requires AllChars(s, p)
    ensures AllChars(TrimRight(s, drop), p)
  {
    var r := TrimRight(s, drop);
    assert forall i :: 0 <= i < |r| ==> r[i] == s[i];
  }

  /** Stripping characters keeps a property every character had. */
  lemma StripCharsPreserves(s: string, chars: set<char>, p: char -> bool)
    requires AllChars(s, p)
    ensures AllChars(StripChars(s, chars), p)
  {
    TrimLeftPreserves(s, Member(chars), p);
    TrimRightPreserves(TrimLeft(s, Member(chars)), Member(chars), p);
  }

  /** A string that neither starts nor ends with one of `chars` is its own
      `strip(chars)`. */
  lemma StripCharsNoop(s: string, chars: set<char>)
    requires s != [] ==> s[0] !in chars && s[|s| - 1] !in chars
    ensures StripChars(s, chars) == s
  {
  }

  // ---------------------------------------------------------------------
  // Joining and splitting lines
  // ---------------------------------------------------------------------

  /** Python's `sep.join(parts)`. */
  function Join(sep: string, parts: seq<string>): (r: string)
    ensures parts == [] ==> r == []
    ensures |parts| == 1 ==> r == parts[0]
  {
    if parts == [] then []
    else if |parts| == 1 then parts[0]
    else parts[0] + sep + Join(sep, parts[1..])
  }

  lemma JoinAppend(sep: string, parts: seq<string>, last: string)
    requires parts != []
    ensures Join(sep, parts + [last]) == Join(sep, parts) + sep + last
  {
    if |parts| > 1 {
      assert (parts + [last])[1..] == parts[1..] + [last];
      JoinAppend(sep, parts[1..], last);
    }
  }

  /** Python's prefix slice `s[:n]`: a negative `n` counts from the end. */
  function Take<T>(s: seq<T>, n: int): (r: seq<T>)
    ensures |r| <= |s| && r == s[..|r|]
    ensures 0 <= n ==> |r| == if n < |s| then n else |s|
    ensures n < 0 ==> |r| == if |s| + n < 0 then 0 else |s| + n
  {
    if 0 <= n then (if n < |s| then s[..n] else s)
    else if |s| + n < 0 then []
    else s[..|s| + n]
  }

  lemma NoLineBreakConcat(a: string, b: string)
    requires NoLineBreak(a) && NoLineBreak(b)
    ensures NoLineBreak(a + b)
  {
    assert forall j :: 0 <= j < |a + b| ==> (a + b)[j] == if j < |a| then a[j] else b[j - |a|];
  }

  /** The index of the first line boundary of `s`, or `|s|` if it has none. */
  function FirstBreak(s: string): (i: nat)
    ensures i <= |s|
    ensures forall j :: 0 <= j < i ==> !IsLineBreak(s[j])
    ensures i < |s| ==> IsLineBreak(s[i])
  {
    if s == [] || IsLineBreak(s[0]) then 0 else 1 + FirstBreak(s[1..])
  }

  predicate NoLineBreak(s: string) {
    forall j :: 0 <= j < |s| ==> !IsLineBreak(s[j])
  }

  /** Python's `str.splitlines()`: boundaries are removed, a trailing
      boundary does not open an empty last line, and `""` has no lines. */
  function SplitLines(s: string): (lines: seq<string>)
    ensures forall k :: 0 <= k < |lines| ==> NoLineBreak(lines[k])
    ensures s == [] <==> lines == []
    decreases |s|
  {
    if s == [] then []
    else
      var i := FirstBreak(s);
      if i == |s| then [s]
      else
        var next := if s[i] == '\r' && i + 1 < |s| && s[i + 1] == '\n' then i + 2 else i + 1;
        [s[..i]] + SplitLines(s[next..])
  }

  /** A line followed by `\n` splits off as the first line. */
  lemma SplitLinesCons(a: string, b: string)
    requires NoLineBreak(a)
    ensures SplitLines(a + "\n" + b) == [a] + SplitLines(b)
  {
    var s := a + "\n" + b;
    assert s == a + ("\n" + b);
    FirstBreakAt(a, "\n" + b);
    var i := FirstBreak(s);
    assert i == |a| && i < |s| && s[i] == '\n';
    assert s[..i] == a;
    assert s[i + 1..] == b;
    assert SplitLines(s) == [s[..i]] + SplitLines(s[i + 1..]);
  }

  /** Two lines joined by `\n` split back into the two. */
  lemma SplitLinesPair(first: string, second: string)
    requires NoLineBreak(first) && NoLineBreak(second) && second != []
    ensures SplitLines(first + "\n" + second) == [first, second]
  {
    SplitLinesCons(first, second);
    assert FirstBreak(second) == |second|;
    assert SplitLines(second) == [second];
  }

  lemma FirstBreakAt(a: string, b: string)
    requires NoLineBreak(a)
    requires b != [] && IsLineBreak(b[0])
    ensures FirstBreak(a + b) == |a|
  {
    if a != [] {
      assert (a + b)[1..] == a[1..] + b;
      FirstBreakAt(a[1..], b);
    }
  }

  /** Splitting lines inverts joining them with `\n`, as long as no
      line holds a boundary and the last line is not empty. */
  lemma {:induction false} SplitJoinRoundTrip(lines: seq<string>)
    requires forall k :: 0 <= k < |lines| ==> NoLineBreak(lines[k])
    requires lines != [] ==> lines[|lines| - 1] != []
    ensures SplitLines(Join("\n", lines)) == lines
  {
    if lines == [] {
    } else if |lines| == 1 {
      assert FirstBreak(lines[0]) == |lines[0]|;
    } else {
      SplitLinesCons(lines[0], Join("\n", lines[1..]));
      SplitJoinRoundTrip(lines[1..]);
    }
  }

  // ---------------------------------------------------------------------
  // Decimal numbers
  // ---------------------------------------------------------------------

  function DigitChar(d: nat): (c: char)
    requires d < 10
    ensures IsDigit(c)
  {
    ('0' as int + d) as char
  }

  function DigitValue(c: char): (d: nat)
    requires IsDigit(c)
    ensures d < 10
  {
    c as int - '0' as int
  }

  /** Python's `str(n)` for a natural number. */
  function Decimal(n: nat): (r: string)
    ensures r != []
    ensures forall i :: 0 <= i < |r| ==> IsDigit(r[i])
  {
    if n < 10 then [DigitChar(n)] else Decimal(n / 10) + [DigitChar(n % 10)]
  }

  /** The value of a string of decimal digits (Python's `int(s)`). */
  function ParseDigits(s: string): (n: nat)
    requires forall i :: 0 <= i < |s| ==> IsDigit(s[i])
  {
    if s == [] then 0 else 10 * ParseDigits(s[..|s| - 1]) + DigitValue(s[|s| - 1])
  }

  /** Reading back a rendered number gives the number. */
  lemma {:induction false} DecimalRoundTrip(n: nat)
    ensures ParseDigits(Decimal(n)) == n
  {
    if n >= 10 {
      var r := Decimal(n);
      assert r[..|r| - 1] == Decimal(n / 10);
      DecimalRoundTrip(n / 10);
    }
  }

  /** Python's `str(i)` for an integer. */
  function IntText(i: int): (r: string)
    ensures r != []
  {
    if i < 0 then "-" + Decimal(-i) else Decimal(i)
  }

  /** Python's `repr` of a float holding `h` hundredths (`h / 100`): at least one
      fractional digit, trailing zeros dropped. */
  function FloatText(h: int): (r: string)
    ensures r != []
    ensures NoLineBreak(r)
  {
    var a := if h < 0 then -h else h;
    var whole := Decimal(a / 100);
    var tenths := (a % 100) / 10;
    var units := a % 10;
    var frac := if units == 0 then [DigitChar(tenths)] else [DigitChar(tenths), DigitChar(units)];
    var r := (if h < 0 then "-" else "") + whole + "." + frac;
    assert forall j :: 0 <= j < |r| ==> IsDigit(r[j]) || r[j] == '.' || r[j] == '-';
    r
  }
}
