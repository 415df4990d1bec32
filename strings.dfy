/**
 * Small string helpers shared by the string builders and parsers:
 * decimal rendering, prefix tests, splitting, trimming and joining.
 */
module Strings {
  import opened Wrappers

  function DigitChar(d: nat): char
    requires d < 10
  {
    "0123456789"[d]
  }

  /** Decimal rendering of a natural number, without leading zeros. */
  function NatToString(n: nat): (s: string)
    ensures |s| >= 1
    ensures forall i :: 0 <= i < |s| ==> '0' <= s[i] <= '9'
    decreases n
  {
    if n < 10 then [DigitChar(n)] else NatToString(n / 10) + [DigitChar(n % 10)]
  }

  /** Decimal rendering of an integer, with a leading '-' when negative. */
  function IntToString(i: int): (s: string)
    ensures |s| >= 1
  {
    if i < 0 then "-" + NatToString(-i) else NatToString(i)
  }

  predicate IsDigit(c: char) { '0' <= c <= '9' }

  predicate AllDigits(s: string)
  {
    forall i :: 0 <= i < |s| ==> IsDigit(s[i])
  }

  /** Value of a non-empty run of decimal digits. */
  function DigitsValue(s: string): nat
    requires AllDigits(s)
    decreases |s|
  {
    if s == [] then 0 else DigitsValue(s[..|s| - 1]) * 10 + (s[|s| - 1] as int - '0' as int)
  }

  /** The rendering of `n` is a run of digits whose value is `n`. */
  lemma {:induction false} NatToStringValue(n: nat)
    ensures AllDigits(NatToString(n)) && DigitsValue(NatToString(n)) == n
    decreases n
  {
    var s := NatToString(n);
    if n < 10 {
      DigitCharValue(n);
    } else {
      var q, d := n / 10, n % 10;
      NatToStringValue(q);
      DigitCharValue(d);
      assert s == NatToString(q) + [DigitChar(d)];
      assert s[..|s| - 1] == NatToString(q) && s[|s| - 1] == DigitChar(d);
      assert DigitsValue(s) == q * 10 + d;
    }
  }

  lemma DigitCharValue(d: nat)
    requires d < 10
    ensures IsDigit(DigitChar(d)) && DigitChar(d) as int - '0' as int == d
  {
  }

  /**
   * Rust's `str::parse` for an integer type whose values are `lo..=hi`: an
   * optional '+', or '-' when the type is signed, then one or more decimal
   * digits whose value lies in the range.
   */
  function ParseRustInt(s: string, lo: int, hi: int): (r: Option<int>)
    ensures r.Some? ==> lo <= r.value <= hi
    ensures r.Some? ==> s != [] && (IsDigit(s[0]) || s[0] == '+' || (s[0] == '-' && lo < 0))
  {
    if s == [] then None
    else
      var neg := s[0] == '-' && lo < 0;
      var ds := if s[0] == '+' || neg then s[1..] else s;
      if ds == [] || !AllDigits(ds) then None
      else
        var d: int := DigitsValue(ds);
        var v := if neg then -d else d;
        if lo <= v <= hi then Some(v) else None
  }

  /** A rendered integer in range parses back to itself. */
  lemma ParseRustIntRender(i: int, lo: int, hi: int)
    requires lo <= i <= hi
    ensures ParseRustInt(IntToString(i), lo, hi) == Some(i)
  {
    var n: nat := if i < 0 then -i else i;
    NatToStringValue(n);
    if i < 0 {
      ParseNegative(NatToString(n), lo, hi);
    } else {
      ParsePlain(NatToString(n), lo, hi);
    }
  }

  lemma ParseNegative(ds: string, lo: int, hi: int)
    requires ds != [] && AllDigits(ds) && lo < 0 && lo <= -(DigitsValue(ds) as int) <= hi
    ensures ParseRustInt("-" + ds, lo, hi) == Some(-(DigitsValue(ds) as int))
  {
    var s := "-" + ds;
    assert s[0] == '-' && s[1..] == ds;
  }

  lemma ParsePlain(ds: string, lo: int, hi: int)
    requires ds != [] && AllDigits(ds) && lo <= DigitsValue(ds) <= hi
    ensures ParseRustInt(ds, lo, hi) == Some(DigitsValue(ds))
  {
    assert IsDigit(ds[0]);
  }

  predicate StartsWith(s: string, p: string)
  {
    |p| <= |s| && s[..|p|] == p
  }

  predicate EndsWith(s: string, p: string)
  {
    |p| <= |s| && s[|s| - |p|..] == p
  }

  /** Whether `p` occurs as a contiguous substring of `s`. */
  predicate Contains(s: string, p: string)
    decreases |s|
  {
    StartsWith(s, p) || (s != [] && Contains(s[1..], p))
  }

  predicate IsSpace(c: char)
  {
    c == ' ' || c == '\t' || c == '\n' || c == '\r' || c == '\U{B}' || c == '\U{C}'
  }

  function TrimLeft(s: string): (r: string)
    ensures |r| <= |s| && s[|s| - |r|..] == r
    ensures r == [] || !IsSpace(r[0])
    decreases |s|
  {
    if s != [] && IsSpace(s[0]) then TrimLeft(s[1..]) else s
  }

  function TrimRight(s: string): (r: string)
    ensures |r| <= |s| && s[..|r|] == r
    ensures r == [] || !IsSpace(r[|r| - 1])
    decreases |s|
  {
    if s != [] && IsSpace(s[|s| - 1]) then TrimRight(s[..|s| - 1]) else s
  }

  /** Leading and trailing white space removed. */
  function Trim(s: string): string
  {
    TrimRight(TrimLeft(s))
  }

  /** A string with no white space at either end is its own trimming. */
  lemma TrimPlain(s: string)
    requires s != [] && !IsSpace(s[0]) && !IsSpace(s[|s| - 1])
    ensures Trim(s) == s
  {
    assert TrimLeft(s) == s;
  }

  /** Trimming keeps a contiguous part of `s`, so it adds no character. */
  lemma TrimFree(s: string, c: char)
    requires c !in s
    ensures c !in Trim(s)
  {
    var l := TrimLeft(s);
    assert forall i :: 0 <= i < |l| ==> l[i] == s[|s| - |l| + i];
    var r := TrimRight(l);
    assert forall i :: 0 <= i < |r| ==> r[i] == l[i];
  }

  /** The result of trimming has no white space at either end. */
  lemma TrimEnds(s: string)
    ensures Trim(s) == [] || (!IsSpace(Trim(s)[0]) && !IsSpace(Trim(s)[|Trim(s)| - 1]))
  {
    var l := TrimLeft(s);
    var r := TrimRight(l);
    if r != [] {
      assert r[0] == l[0];
    }
  }

  /** Lower-case ASCII letters; other characters are kept. */
  function ToLower(s: string): (r: string)
    ensures |r| == |s|
  {
    seq(|s|, i requires 0 <= i < |s| => if 'A' <= s[i] <= 'Z' then (s[i] as int + 32) as char else s[i])
  }

  /** Index of the first occurrence of `c` in `s`, or |s| when absent. */
  function IndexOf(s: string, c: char): (k: nat)
    ensures k <= |s|
    ensures forall j :: 0 <= j < k ==> s[j] != c
    ensures k < |s| ==> s[k] == c
    decreases |s|
  {
    if s == [] then 0 else if s[0] == c then 0 else 1 + IndexOf(s[1..], c)
  }

  /** The number of bytes UTF-8 spends on `c`. */
  function Utf8Width(c: char): (n: nat)
    ensures 1 <= n <= 4
    ensures n == 1 <==> c < '\U{0080}'
  {
    if c < '\U{0080}' then 1
    else if c < '\U{0800}' then 2
    else if c < '\U{10000}' then 3
    else 4
  }

  /** The length in bytes of `s` encoded as UTF-8, as Rust's `str::len` counts it. */
  function Utf8Length(s: string): (n: nat)
    ensures |s| <= n <= 4 * |s|
    ensures n == |s| <==> forall i :: 0 <= i < |s| ==> s[i] < '\U{0080}'
    decreases |s|
  {
    if s == [] then 0 else Utf8Width(s[0]) + Utf8Length(s[1..])
  }

  /** `s` split at every `sep`, as Go's strings.Split and Rust's str::split do. */
  function Split(s: string, sep: char): (parts: seq<string>)
    ensures |parts| >= 1
    ensures forall i :: 0 <= i < |parts| ==> sep !in parts[i]
    decreases |s|
  {
    var k := IndexOf(s, sep);
    if k == |s| then [s] else [s[..k]] + Split(s[k + 1..], sep)
  }

  /** The parts joined with `sep` between them; the inverse of Split. */
  function Join(parts: seq<string>, sep: string): string
  {
    if parts == [] then "" else if |parts| == 1 then parts[0] else parts[0] + sep + Join(parts[1..], sep)
  }

  /** Joining one more part appends the separator and the part. */
  lemma {:induction false} JoinSnoc(parts: seq<string>, p: string, sep: string)
    requires parts != []
    ensures Join(parts + [p], sep) == Join(parts, sep) + sep + p
    decreases |parts|
  {
    if |parts| > 1 {
      JoinSnoc(parts[1..], p, sep);
      assert (parts + [p])[1..] == parts[1..] + [p];
    } else {
      assert (parts + [p])[1..] == [p];
    }
  }

  lemma {:induction false} JoinSplit(s: string, sep: char)
    ensures Join(Split(s, sep), [sep]) == s
    decreases |s|
  {
    var k := IndexOf(s, sep);
    if k < |s| {
      var rest := Split(s[k + 1..], sep);
      assert Split(s, sep) == [s[..k]] + rest;
      JoinSplit(s[k + 1..], sep);
      assert ([s[..k]] + rest)[1..] == rest;
      assert Join(Split(s, sep), [sep]) == s[..k] + [sep] + Join(rest, [sep]);
      assert s == s[..k] + [sep] + s[k + 1..];
    }
  }

  /** Splitting a string that starts with a part free of `sep`. */
  lemma SplitCons(x: string, sep: char, rest: string)
    requires sep !in x
    ensures Split(x + [sep] + rest, sep) == [x] + Split(rest, sep)
  {
    var s := x + [sep] + rest;
    assert s[|x|] == sep;
    var k := IndexOf(s, sep);
    assert k == |x|;
    assert s[..k] == x && s[k + 1..] == rest;
  }

  /** Parts free of `sep`, joined by `sep`, split back into those parts; the other half of JoinSplit. */
  lemma {:induction false} SplitJoin(parts: seq<string>, sep: char)
    requires parts != [] && forall i :: 0 <= i < |parts| ==> sep !in parts[i]
    ensures Split(Join(parts, [sep]), sep) == parts
    decreases |parts|
  {
    if |parts| == 1 {
      SplitNone(parts[0], sep);
    } else {
      var rest := parts[1..];
      assert forall i :: 0 <= i < |rest| ==> rest[i] == parts[i + 1];
      SplitJoin(rest, sep);
      assert Join(parts, [sep]) == parts[0] + [sep] + Join(rest, [sep]);
      SplitCons(parts[0], sep, Join(rest, [sep]));
      assert [parts[0]] + rest == parts;
    }
  }

  /** Four parts free of `sep`, joined by `sep`, split back into those parts. */
  lemma SplitFour(a: string, b: string, c: string, d: string, sep: char)
    requires sep !in a && sep !in b && sep !in c && sep !in d
    ensures Split(a + [sep] + b + [sep] + c + [sep] + d, sep) == [a, b, c, d]
  {
    var r2 := c + [sep] + d;
    var r1 := b + [sep] + r2;
    assert a + [sep] + b + [sep] + c + [sep] + d == a + [sep] + r1;
    assert Split(r2, sep) == [c, d] by {
      SplitNone(d, sep);
      SplitCons(c, sep, d);
    }
    assert Split(r1, sep) == [b, c, d] by {
      SplitCons(b, sep, r2);
      PrependOne(b, [c, d]);
    }
    assert Split(a + [sep] + r1, sep) == [a, b, c, d] by {
      SplitCons(a, sep, r1);
      PrependOne(a, [b, c, d]);
    }
  }

  lemma PrependOne(x: string, xs: seq<string>)
    ensures [x] + xs == [x] + xs[..]
    ensures |xs| == 2 ==> [x] + xs == [x, xs[0], xs[1]]
    ensures |xs| == 3 ==> [x] + xs == [x, xs[0], xs[1], xs[2]]
  {
  }

  /** A string free of `sep` is its own single part. */
  lemma SplitNone(x: string, sep: char)
    requires sep !in x
    ensures Split(x, sep) == [x]
  {
  }

  /** Every separator starts a new part. */
  lemma {:induction false} SplitCount(s: string, sep: char)
    ensures |Split(s, sep)| == multiset(s)[sep] + 1
    decreases |s|
  {
    var k := IndexOf(s, sep);
    if k < |s| {
      SplitCount(s[k + 1..], sep);
      CountPast(s, k, sep);
    } else {
      assert sep !in s;
      assert multiset(s)[sep] == 0;
    }
  }

  /** The first occurrence of `x` is one more than the occurrences after it. */
  lemma CountPast<T>(s: seq<T>, k: nat, x: T)
    requires k < |s| && s[k] == x && x !in s[..k]
    ensures multiset(s)[x] == multiset(s[k + 1..])[x] + 1
  {
    assert s == s[..k] + [x] + s[k + 1..];
    assert multiset(s) == multiset(s[..k]) + multiset{x} + multiset(s[k + 1..]);
    assert multiset(s[..k])[x] == 0;
  }

  /** Index of the first white-space character of `s`, or |s|. */
  function WordEnd(s: string): (k: nat)
    ensures k <= |s|
    ensures forall j :: 0 <= j < k ==> !IsSpace(s[j])
    ensures k < |s| ==> IsSpace(s[k])
    decreases |s|
  {
    if s == [] || IsSpace(s[0]) then 0 else 1 + WordEnd(s[1..])
  }

  predicate IsWord(w: string)
  {
    w != [] && forall j :: 0 <= j < |w| ==> !IsSpace(w[j])
  }

  /** Rust's `split_whitespace` on ASCII white space: the maximal runs of other characters. */
  function Words(s: string): (ws: seq<string>)
    decreases |s|
  {
    if s == [] then []
    else if IsSpace(s[0]) then Words(s[1..])
    else
      var k := WordEnd(s);
      [s[..k]] + Words(s[k..])
  }

  /** Every word is a non-empty run without white space. */
  lemma {:induction false} WordsAreWords(s: string)
    ensures forall i :: 0 <= i < |Words(s)| ==> IsWord(Words(s)[i])
    decreases |s|
  {
    if s != [] {
      if IsSpace(s[0]) {
        WordsAreWords(s[1..]);
      } else {
        var k := WordEnd(s);
        WordsAreWords(s[k..]);
        assert IsWord(s[..k]);
      }
    }
  }

  /** A word is its own trimming and its own single word. */
  lemma OneWord(w: string)
    requires IsWord(w)
    ensures TrimLeft(w) == w && WordEnd(w) == |w| && Words(w) == [w] && Trim(w) == w
  {
    assert w[|w|..] == [];
    assert w[..|w|] == w;
  }

  lemma TrimLeftWord(s: string)
    requires s != [] && !IsSpace(s[0])
    ensures TrimLeft(s) == s
  {
  }

  lemma TrimRightWord(s: string)
    requires s != [] && !IsSpace(s[|s| - 1])
    ensures TrimRight(s) == s
  {
  }

  /** The word boundary after a leading word. */
  lemma WordEndAt(a: string, rest: string)
    requires IsWord(a) && rest != [] && IsSpace(rest[0])
    ensures WordEnd(a + rest) == |a|
  {
    var s := a + rest;
    assert s[|a|] == rest[0];
    assert forall j :: 0 <= j < |a| ==> s[j] == a[j];
  }

  /** Two words with a space between them are already trimmed. */
  lemma TwoWordsTrimmed(a: string, b: string)
    requires IsWord(a) && IsWord(b)
    ensures Trim(a + " " + b) == a + " " + b
  {
    var s := a + " " + b;
    assert s[0] == a[0];
    assert s[|s| - 1] == b[|b| - 1];
    TrimLeftWord(s);
    TrimRightWord(s);
  }

  /** Two words with a space between them split into those two words. */
  lemma TwoWords(a: string, b: string)
    requires IsWord(a) && IsWord(b)
    ensures Words(a + " " + b) == [a, b]
  {
    var s := a + " " + b;
    var t := " " + b;
    assert Words(t) == [b] by {
      assert t[1..] == b;
      OneWord(b);
    }
    assert WordEnd(s) == |a| by {
      assert s == a + t;
      WordEndAt(a, t);
    }
    assert s[..|a|] == a && s[|a|..] == t && !IsSpace(s[0]);
  }

  /** A digit run without a leading zero has a positive value, unless it is "0". */
  lemma {:induction false} LeadingDigitPositive(p: string)
    requires |p| >= 1 && AllDigits(p) && p[0] != '0'
    ensures DigitsValue(p) >= 1
    decreases |p|
  {
    if |p| > 1 {
      LeadingDigitPositive(p[..|p| - 1]);
    }
  }

  /** A digit run without a leading zero is the rendering of its value. */
  lemma {:induction false} CanonicalDigits(p: string)
    requires |p| >= 1 && AllDigits(p) && (|p| == 1 || p[0] != '0')
    ensures NatToString(DigitsValue(p)) == p
    decreases |p|
  {
    var q := p[..|p| - 1];
    var c := p[|p| - 1];
    DigitsSnoc(p, q, c);
    if |p| == 1 {
      assert q == [];
    } else {
      LeadingDigitPositive(q);
      CanonicalDigits(q);
      RenderSnoc(DigitsValue(q), c as int - '0' as int);
    }
  }

  /** The last digit of a run adds its value to ten times the value of the rest. */
  lemma DigitsSnoc(p: string, q: string, c: char)
    requires |p| >= 1 && AllDigits(p) && q == p[..|p| - 1] && c == p[|p| - 1]
    ensures p == q + [c] && AllDigits(q) && IsDigit(c)
    ensures DigitsValue(p) == DigitsValue(q) * 10 + (c as int - '0' as int)
    ensures DigitChar(c as int - '0' as int) == c
  {
    DigitCharOf(c);
  }

  /** A digit character is the rendering of its own value. */
  lemma DigitCharOf(c: char)
    requires IsDigit(c)
    ensures DigitChar(c as int - '0' as int) == c
  {
  }

  /** Appending a digit to a positive number appends its character to the rendering. */
  lemma RenderSnoc(m: nat, d: nat)
    requires 1 <= m && d < 10
    ensures NatToString(m * 10 + d) == NatToString(m) + [DigitChar(d)]
  {
    var n := m * 10 + d;
    assert n / 10 == m && n % 10 == d;
  }

  /** The rendering of a positive number does not start with '0'. */
  lemma {:induction false} NatToStringLeading(n: nat)
    requires n >= 1
    ensures NatToString(n)[0] != '0'
    decreases n
  {
    if n >= 10 {
      NatToStringLeading(n / 10);
    }
  }

  /** Lines, each followed by '\n'. */
  function Terminated(ls: seq<string>): string
    decreases |ls|
  {
    if ls == [] then "" else ls[0] + "\n" + Terminated(ls[1..])
  }

  lemma {:induction false} TerminatedSnoc(ls: seq<string>, x: string)
    ensures Terminated(ls + [x]) == Terminated(ls) + x + "\n"
    decreases |ls|
  {
    if ls == [] {
      assert [] + [x] == [x];
      assert [x][1..] == [];
    } else {
      assert (ls + [x])[0] == ls[0] && (ls + [x])[1..] == ls[1..] + [x];
      TerminatedSnoc(ls[1..], x);
    }
  }

  /** Lines followed by '\n' each are those lines and an empty one joined with '\n'. */
  lemma {:induction false} TerminatedJoin(ls: seq<string>)
    ensures Terminated(ls) == Join(ls + [""], "\n")
    decreases |ls|
  {
    if ls != [] {
      TerminatedJoin(ls[1..]);
      assert (ls + [""])[0] == ls[0] && (ls + [""])[1..] == ls[1..] + [""];
    }
  }

  /** Text made of lines each followed by '\n' splits back into those lines and the empty text after the last one. */
  lemma SplitTerminated(ls: seq<string>)
    requires forall i :: 0 <= i < |ls| ==> '\n' !in ls[i]
    ensures Split(Terminated(ls), '\n') == ls + [""]
  {
    TerminatedJoin(ls);
    assert forall i :: 0 <= i < |ls + [""]| ==> '\n' !in (ls + [""])[i] by {
      forall i | 0 <= i < |ls + [""]| ensures '\n' !in (ls + [""])[i] {
        if i < |ls| { assert (ls + [""])[i] == ls[i]; }
      }
    }
    SplitJoin(ls + [""], '\n');
  }
}
