/** String primitives the dashboard and the back end rely on: whitespace
    trimming (JavaScript `trim`, Python `strip`, the regex class `\s`),
    substring search (`includes`, Python `in`), `split` on one character,
    and decimal numerals (`parseInt` on a digit run, number-to-text). */
module Text {
  import opened Wrappers

  /** Whitespace, restricted to ASCII: space, tab, line feed, vertical tab,
      form feed and carriage return. */
  predicate IsSpace(c: char) {
    c == ' ' || '\t' <= c <= '\r'
  }

  predicate AllSpace(s: string) {
    forall i :: 0 <= i < |s| ==> IsSpace(s[i])
  }

  predicate IsDigit(c: char) {
    '0' <= c <= '9'
  }

  predicate AllDigits(s: string) {
    forall i :: 0 <= i < |s| ==> IsDigit(s[i])
  }

  // ---------------------------------------------------------------------------
  // Trimming
  // ---------------------------------------------------------------------------

  /** `s` without its leading whitespace. */
  function TrimStart(s: string): (r: string)
    ensures |r| <= |s| && r == s[|s| - |r|..]
    ensures r == [] || !IsSpace(r[0])
  {
    if s != [] && IsSpace(s[0]) then TrimStart(s[1..]) else s
  }

  /** What `TrimStart` removes is whitespace. */
  lemma {:induction false} TrimStartCut(s: string)
    ensures AllSpace(s[..|s| - |TrimStart(s)|])
  {
    if s != [] && IsSpace(s[0]) {
      var r := TrimStart(s);
      TrimStartCut(s[1..]);
      forall j | 0 <= j < |s| - |r|
        ensures IsSpace(s[j])
      {
        if j > 0 {
          assert s[1..][..|s| - 1 - |r|][j - 1] == s[j];
        }
      }
    }
  }

  /** `s` without its trailing whitespace. */
  function TrimEnd(s: string): (r: string)
    ensures |r| <= |s| && r == s[..|r|]
    ensures r == [] || !IsSpace(r[|r| - 1])
  {
    if s != [] && IsSpace(s[|s| - 1]) then TrimEnd(s[..|s| - 1]) else s
  }

  /** What `TrimEnd` removes is whitespace. */
  lemma {:induction false} TrimEndCut(s: string)
    ensures AllSpace(s[|TrimEnd(s)|..])
  {
    if s != [] && IsSpace(s[|s| - 1]) {
      var r := TrimEnd(s);
      TrimEndCut(s[..|s| - 1]);
      forall j | |r| <= j < |s|
        ensures IsSpace(s[j])
      {
        if j < |s| - 1 {
          assert s[..|s| - 1][|r|..][j - |r|] == s[j];
        }
      }
    }
  }

  /** How many whitespace characters `s` starts with. */
  function LeadingSpace(s: string): (n: nat)
    ensures n <= |s|
  {
    |s| - |TrimStart(s)|
  }

  /** `s` without leading and trailing whitespace: what is left neither
      starts nor ends with whitespace. */
  function Trim(s: string): (r: string)
    ensures |r| <= |s|
    ensures r == [] || (!IsSpace(r[0]) && !IsSpace(r[|r| - 1]))
  {
    TrimEnd(TrimStart(s))
  }

  /** Trimming cuts only whitespace, and only from the two ends: the result
      is the slice of `s` after its leading whitespace. */
  lemma TrimIsSlice(s: string)
    ensures LeadingSpace(s) + |Trim(s)| <= |s|
    ensures Trim(s) == s[LeadingSpace(s)..LeadingSpace(s) + |Trim(s)|]
    ensures AllSpace(s[..LeadingSpace(s)]) && AllSpace(s[LeadingSpace(s) + |Trim(s)|..])
  {
    var t := TrimStart(s);
    TrimStartCut(s);
    TrimEndCut(t);
    CutTwice(s, |s| - |t|, t, TrimEnd(t));
  }

  /** Cutting a blank prefix and then a blank suffix leaves a slice of the
      original between blanks. */
  lemma CutTwice(s: string, a: nat, t: string, r: string)
    requires a <= |s| && t == s[a..] && |r| <= |t| && r == t[..|r|]
    requires AllSpace(s[..a]) && AllSpace(t[|r|..])
    ensures a + |r| <= |s| && r == s[a..a + |r|]
    ensures AllSpace(s[..a]) && AllSpace(s[a + |r|..])
  {
    assert s[a + |r|..] == t[|r|..];
  }

  lemma {:induction false} TrimStartPadded(pre: string, s: string)
    requires AllSpace(pre)
    requires s == [] || !IsSpace(s[0])
    ensures TrimStart(pre + s) == s
    decreases |pre|
  {
    if pre != [] {
      assert (pre + s)[1..] == pre[1..] + s;
      TrimStartPadded(pre[1..], s);
    }
  }

  lemma {:induction false} TrimEndPadded(s: string, post: string)
    requires AllSpace(post)
    requires s == [] || !IsSpace(s[|s| - 1])
    ensures TrimEnd(s + post) == s
    decreases |post|
  {
    if post != [] {
      var p := post[..|post| - 1];
      assert (s + post)[..|s + post| - 1] == s + p;
      TrimEndPadded(s, p);
    } else {
      assert s + post == s;
    }
  }

  /** Trailing whitespace makes no difference to `TrimEnd`. */
  lemma {:induction false} TrimEndSpaces(s: string, post: string)
    requires AllSpace(post)
    ensures TrimEnd(s + post) == TrimEnd(s)
    decreases |post|
  {
    if post == [] {
      assert s + post == s;
    } else {
      var p := post[..|post| - 1];
      assert (s + post)[..|s + post| - 1] == s + p;
      TrimEndSpaces(s, p);
    }
  }

  /** Trimming removes exactly the whitespace padding around a word whose
      ends are not whitespace. */
  lemma TrimPadded(pre: string, s: string, post: string)
    requires AllSpace(pre) && AllSpace(post)
    requires s != [] && !IsSpace(s[0]) && !IsSpace(s[|s| - 1])
    ensures Trim(pre + s + post) == s
  {
    assert pre + s + post == pre + (s + post);
    TrimStartPadded(pre, s + post);
    TrimEndPadded(s, post);
  }

  /** A string of whitespace trims to nothing. */
  lemma {:induction false} TrimAllSpace(s: string)
    requires AllSpace(s)
    ensures Trim(s) == []
    decreases |s|
  {
    if s != [] {
      TrimAllSpace(s[1..]);
    }
  }

  // ---------------------------------------------------------------------------
  // Substrings
  // ---------------------------------------------------------------------------

  predicate OccursAt(s: string, sub: string, i: int) {
    0 <= i && i + |sub| <= |s| && s[i..i + |sub|] == sub
  }

  /** `sub` is a substring of `s` (JavaScript `s.includes(sub)`, Python
      `sub in s`), tried at each starting position in turn. */
  predicate Contains(s: string, sub: string)
    decreases |s|
  {
    if |sub| > |s| then false
    else s[..|sub|] == sub || Contains(s[1..], sub)
  }

  /** `Contains` holds exactly when `sub` occurs at some position. */
  lemma {:induction false} ContainsOccurs(s: string, sub: string)
    ensures Contains(s, sub) <==> exists i :: OccursAt(s, sub, i)
    decreases |s|
  {
    if |sub| <= |s| {
      if s[..|sub|] != sub {
        ContainsOccurs(s[1..], sub);
        forall i | OccursAt(s, sub, i)
          ensures OccursAt(s[1..], sub, i - 1)
        {
          assert i != 0;
          assert s[1..][i - 1..i - 1 + |sub|] == s[i..i + |sub|];
        }
        forall i | OccursAt(s[1..], sub, i)
          ensures OccursAt(s, sub, i + 1)
        {
          assert s[1..][i..i + |sub|] == s[i + 1..i + 1 + |sub|];
        }
      } else {
        assert OccursAt(s, sub, 0);
      }
    }
  }

  /** An occurrence at a known position makes `s` contain `sub`. */
  lemma OccursContains(s: string, sub: string, i: int)
    requires OccursAt(s, sub, i)
    ensures Contains(s, sub)
  {
    ContainsOccurs(s, sub);
  }

  /** An occurrence in `b` is one in `a + b`. */
  lemma ContainsAfterSuffix(a: string, b: string, sub: string)
    ensures Contains(b, sub) ==> Contains(a + b, sub)
  {
    ContainsOccurs(b, sub);
    if Contains(b, sub) {
      var i :| OccursAt(b, sub, i);
      assert (a + b)[|a| + i..|a| + i + |sub|] == b[i..i + |sub|];
      OccursContains(a + b, sub, |a| + i);
    }
  }

  /** An occurrence of `sub` in `a + b` lies wholly in `b` when `a` does
      not hold the first character of `sub`. */
  lemma ContainsAfterPrefix(a: string, b: string, sub: string)
    requires sub != [] && sub[0] !in a
    ensures Contains(a + b, sub) ==> Contains(b, sub)
  {
    ContainsOccurs(a + b, sub);
    if Contains(a + b, sub) {
      var i :| OccursAt(a + b, sub, i);
      assert (a + b)[i] == sub[0];
      assert i >= |a|;
      assert (a + b)[i..i + |sub|] == b[i - |a|..i - |a| + |sub|];
      OccursContains(b, sub, i - |a|);
    }
  }

  /** A string holds every character of every word it contains, so it
      cannot contain a word one of whose characters it lacks. */
  lemma ContainsHasChars(s: string, sub: string, k: int)
    requires 0 <= k < |sub|
    ensures Contains(s, sub) ==> sub[k] in s
  {
    ContainsOccurs(s, sub);
    if Contains(s, sub) {
      var i :| OccursAt(s, sub, i);
      assert s[i..i + |sub|][k] == s[i + k];
    }
  }

  // ---------------------------------------------------------------------------
  // Splitting on one character
  // ---------------------------------------------------------------------------

  /** The fields of `s` between occurrences of `sep`, as JavaScript's
      `s.split(sep)` gives them for a one-character separator (empty fields
      included, so there is always one more field than separators). */
  function Split(s: string, sep: char): (parts: seq<string>)
    ensures |parts| >= 1
  {
    if s == [] then [[]]
    else
      var rest := Split(s[1..], sep);
      if s[0] == sep then [[]] + rest
      else [[s[0]] + rest[0]] + rest[1..]
  }

  /** No field holds the separator. */
  lemma {:induction false} SplitFieldsFree(s: string, sep: char)
    ensures forall i :: 0 <= i < |Split(s, sep)| ==> sep !in Split(s, sep)[i]
    decreases |s|
  {
    if s != [] {
      var rest := Split(s[1..], sep);
      SplitFieldsFree(s[1..], sep);
      if s[0] != sep {
        var first := [s[0]] + rest[0];
        assert sep !in first by {
          forall j | 0 <= j < |first|
            ensures first[j] != sep
          {
            if j > 0 {
              assert first[j] == rest[0][j - 1];
            }
          }
        }
        var parts := [first] + rest[1..];
        forall i | 0 <= i < |parts|
          ensures sep !in parts[i]
        {
          if i > 0 {
            assert parts[i] == rest[i];
          }
        }
      }
    }
  }

  /** The fields joined back with `sep` between them. */
  function Join(parts: seq<string>, sep: char): string
    requires |parts| >= 1
  {
    if |parts| == 1 then parts[0] else parts[0] + [sep] + Join(parts[1..], sep)
  }

  /** Splitting loses nothing: the fields joined again give back the text. */
  lemma {:induction false} JoinSplit(s: string, sep: char)
    ensures Join(Split(s, sep), sep) == s
  {
    if s != [] {
      var rest := Split(s[1..], sep);
      JoinSplit(s[1..], sep);
      if s[0] == sep {
        assert ([[]] + rest)[1..] == rest;
      } else {
        var parts := [[s[0]] + rest[0]] + rest[1..];
        assert parts[1..] == rest[1..];
        if |rest| > 1 {
          assert Join(rest, sep) == rest[0] + [sep] + Join(rest[1..], sep);
        }
      }
    }
  }

  lemma {:induction false} SplitFieldPrefix(x: string, t: string, sep: char)
    requires sep !in x
    ensures Split(x + t, sep) == [x + Split(t, sep)[0]] + Split(t, sep)[1..]
    decreases |x|
  {
    if x == [] {
      var parts := Split(t, sep);
      assert x + t == t;
      assert x + parts[0] == parts[0];
      assert [parts[0]] + parts[1..] == parts;
    } else {
      assert (x + t)[1..] == x[1..] + t;
      assert x[0] in x;
      SplitFieldPrefix(x[1..], t, sep);
      assert [x[0]] + (x[1..] + Split(t, sep)[0]) == x + Split(t, sep)[0];
    }
  }

  /** The second field of a text is what lies between its first separator
      and the next one (or the end). */
  lemma SecondField(a: string, b: string, rest: string, sep: char)
    requires sep !in a && sep !in b
    requires rest == [] || rest[0] == sep
    ensures |Split(a + [sep] + b + rest, sep)| >= 2
    ensures Split(a + [sep] + b + rest, sep)[1] == b
  {
    ConcatRegroup(a, [sep], b, rest);
    SecondFieldGrouped(a, b, rest, sep);
  }

  // Kept apart so that SecondFieldGrouped sees the right-nested form only;
  // proving the regrouping next to Split's definition is expensive.
  lemma ConcatRegroup(a: string, s: string, b: string, rest: string)
    ensures a + s + b + rest == a + (s + (b + rest))
  {
  }

  /** SecondField with the concatenation nested to the right. */
  lemma SecondFieldGrouped(a: string, b: string, rest: string, sep: char)
    requires sep !in a && sep !in b
    requires rest == [] || rest[0] == sep
    ensures |Split(a + ([sep] + (b + rest)), sep)| >= 2
    ensures Split(a + ([sep] + (b + rest)), sep)[1] == b
  {
    var x := [sep] + (b + rest);
    SplitFieldPrefix(a, x, sep);
    SplitAtSeparator(b + rest, sep);
    FirstFieldOf(b, rest, sep);
    SecondOfList(Split(a + x, sep), a + Split(x, sep)[0], Split(x, sep), Split(b + rest, sep));
  }

  // The list step of SecondFieldGrouped, on abstract lists, so that it is
  // proved without Split's definition in view.
  lemma SecondOfList(whole: seq<string>, head: string, px: seq<string>, pb: seq<string>)
    requires px == [[]] + pb && |pb| >= 1
    requires whole == [head] + px[1..]
    ensures |whole| >= 2 && whole[1] == pb[0]
  {
    assert px[1] == pb[0];
  }

  /** A text is what lies before position `i`, the character there, and
      what lies after. */
  lemma SliceAround(s: string, i: nat)
    requires i < |s|
    ensures s == s[..i] + ([s[i]] + s[i + 1..])
  {
  }

  /** The suffix from `i` is the slice up to `j` followed by the suffix
      from `j`. */
  lemma SliceSplit(s: string, i: nat, j: nat)
    requires i <= j <= |s|
    ensures s[i..] == s[i..j] + s[j..]
  {
  }

  /** A text starting with the separator has an empty first field. */
  lemma SplitAtSeparator(t: string, sep: char)
    ensures Split([sep] + t, sep) == [[]] + Split(t, sep)
  {
    assert ([sep] + t)[1..] == t;
  }

  /** The first field of `b` followed by a separator (or nothing) is `b`. */
  lemma FirstFieldOf(b: string, rest: string, sep: char)
    requires sep !in b
    requires rest == [] || rest[0] == sep
    ensures Split(b + rest, sep)[0] == b
  {
    SplitFieldPrefix(b, rest, sep);
    if rest == [] {
      assert Split(rest, sep) == [[]];
    } else {
      assert rest == [sep] + rest[1..];
      SplitAtSeparator(rest[1..], sep);
    }
    assert b + [] == b;
  }

  /** Splitting is the inverse of joining fields free of the separator. */
  lemma {:induction false} SplitJoin(parts: seq<string>, sep: char)
    requires |parts| >= 1
    requires forall i :: 0 <= i < |parts| ==> sep !in parts[i]
    ensures Split(Join(parts, sep), sep) == parts
    decreases |parts|
  {
    if |parts| == 1 {
      SplitFieldPrefix(parts[0], [], sep);
      assert parts[0] + [] == parts[0];
    } else {
      var tail := Join(parts[1..], sep);
      SplitJoin(parts[1..], sep);
      assert parts[0] + [sep] + tail == parts[0] + ([sep] + tail);
      SplitFieldPrefix(parts[0], [sep] + tail, sep);
      assert ([sep] + tail)[1..] == tail;
      assert parts[0] + [] == parts[0];
    }
  }

  // ---------------------------------------------------------------------------
  // Decimal numerals
  // ---------------------------------------------------------------------------

  function DigitValue(c: char): (d: nat)
    requires IsDigit(c)
    ensures d < 10
  {
    c as int - '0' as int
  }

  function DigitChar(d: nat): (c: char)
    requires d < 10
    ensures IsDigit(c) && DigitValue(c) == d
  {
    ('0' as int + d) as char
  }

  /** The value of a run of decimal digits, as `parseInt` reads it (leading
      zeros allowed, the empty run reading 0). */
  function ParseDigits(s: string): nat
    requires AllDigits(s)
  {
    if s == [] then 0 else 10 * ParseDigits(s[..|s| - 1]) + DigitValue(s[|s| - 1])
  }

  /** The canonical decimal numeral of `n`: non-empty, all digits, and
      without a leading zero unless `n` is 0. */
  function NatToString(n: nat): (s: string)
    ensures |s| >= 1 && AllDigits(s)
    ensures s[0] == '0' ==> n == 0
  {
    if n < 10 then [DigitChar(n)] else NatToString(n / 10) + [DigitChar(n % 10)]
  }

  /** Reading a numeral back gives the number that was written. */
  lemma {:induction false} ParseNatToString(n: nat)
    ensures ParseDigits(NatToString(n)) == n
  {
    if n >= 10 {
      var s := NatToString(n);
      assert s[..|s| - 1] == NatToString(n / 10);
      ParseNatToString(n / 10);
    }
  }

  /** JavaScript's rendering of an integral number: a minus sign before the
      numeral of its magnitude when negative. */
  function IntToString(i: int): string {
    if i < 0 then "-" + NatToString(-i) else NatToString(i)
  }

  /** The longest prefix of `s` made of digits. */
  function DigitRun(s: string): (r: string)
    ensures |r| <= |s| && r == s[..|r|] && AllDigits(r)
    ensures |r| == |s| || !IsDigit(s[|r|])
  {
    if s != [] && IsDigit(s[0]) then [s[0]] + DigitRun(s[1..]) else []
  }

  lemma {:induction false} DigitRunStopsAt(d: string, rest: string)
    requires AllDigits(d)
    requires rest == [] || !IsDigit(rest[0])
    ensures DigitRun(d + rest) == d
    decreases |d|
  {
    if d == [] {
      assert d + rest == rest;
    } else {
      assert (d + rest)[1..] == d[1..] + rest;
      DigitRunStopsAt(d[1..], rest);
    }
  }

  /** The integer a text starts with: an optional minus sign followed by a
      non-empty run of digits; `None` when the text does not start that way. */
  function LeadingInt(s: string): Option<int> {
    var negative := |s| > 0 && s[0] == '-';
    var digits := DigitRun(if negative then s[1..] else s);
    var magnitude: int := ParseDigits(digits);
    if digits == [] then None
    else if negative then Some(-magnitude)
    else Some(magnitude)
  }

  /** A rendered integer reads back as itself, whatever non-digit text follows. */
  lemma LeadingIntOfIntToString(v: int, rest: string)
    requires rest == [] || !IsDigit(rest[0])
    ensures LeadingInt(IntToString(v) + rest) == Some(v)
  {
    var n: nat := if v < 0 then -v else v;
    var numeral := NatToString(n);
    DigitRunStopsAt(numeral, rest);
    ParseNatToString(n);
    if v < 0 {
      assert ("-" + numeral + rest)[1..] == numeral + rest;
    } else {
      assert (numeral + rest)[0] == numeral[0];
    }
  }
}
