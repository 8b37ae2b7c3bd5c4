/** String primitives of the JavaScript runtime that the core relies on:
    `toLowerCase`, `trim`, `split(' ')`, substring search and the decimal
    rendering of a number. */
module Strings {

  /** ASCII upper-case letters map to lower case; every other character is kept. */
  function LowerChar(c: char): char {
    if 'A' <= c <= 'Z' then (c as int - 'A' as int + 'a' as int) as char else c
  }

  function ToLower(s: string): string {
    seq(|s|, i requires 0 <= i < |s| => LowerChar(s[i]))
  }

  lemma ToLowerIdempotent(s: string)
    ensures ToLower(ToLower(s)) == ToLower(s)
  {
  }

  /** A lower-cased string holds no ASCII capital. */
  lemma ToLowerNoCapitals(s: string)
    ensures forall k :: 0 <= k < |ToLower(s)| ==> !('A' <= ToLower(s)[k] <= 'Z')
  {
  }

  /** The characters `String.prototype.trim` removes: WhiteSpace (including the
      Unicode space separators) and LineTerminator. */
  predicate IsJsSpace(c: char) {
    var n := c as int;
    n == 0x09 || n == 0x0A || n == 0x0B || n == 0x0C || n == 0x0D || n == 0x20 ||
    n == 0xA0 || n == 0x1680 || (0x2000 <= n <= 0x200A) || n == 0x2028 ||
    n == 0x2029 || n == 0x202F || n == 0x205F || n == 0x3000 || n == 0xFEFF
  }

  function TrimStart(s: string): (r: string)
    ensures |r| <= |s| && r == s[|s| - |r|..]
    ensures r == [] || !IsJsSpace(r[0])
    ensures forall k :: 0 <= k < |s| - |r| ==> IsJsSpace(s[k])
  {
    if |s| > 0 && IsJsSpace(s[0]) then TrimStart(s[1..]) else s
  }

  function TrimEnd(s: string): (r: string)
    ensures |r| <= |s| && r == s[..|r|]
    ensures r == [] || !IsJsSpace(r[|r| - 1])
    ensures forall k :: |r| <= k < |s| ==> IsJsSpace(s[k])
  {
    if |s| > 0 && IsJsSpace(s[|s| - 1]) then TrimEnd(s[..|s| - 1]) else s
  }

  /** `r` is the slice of `s` that starts at `i`, and every character of `s`
      outside that slice is white space. */
  ghost predicate TrimmedAt(s: string, r: string, i: nat) {
    && i + |r| <= |s|
    && r == s[i..i + |r|]
    && (forall k :: 0 <= k < i ==> IsJsSpace(s[k]))
    && (forall k :: i + |r| <= k < |s| ==> IsJsSpace(s[k]))
  }

  /** `s.trim()`: the result is a slice of `s` that neither starts nor ends with
      white space, and everything cut off on either side is white space. */
  function Trim(s: string): (r: string)
    ensures r == [] || (!IsJsSpace(r[0]) && !IsJsSpace(r[|r| - 1]))
    ensures exists i :: TrimmedAt(s, r, i)
  {
    TrimBothEnds(s);
    TrimEnd(TrimStart(s))
  }

  /** Trimming the start and then the end cuts only white space off `s`. */
  lemma TrimBothEnds(s: string)
    ensures TrimmedAt(s, TrimEnd(TrimStart(s)), |s| - |TrimStart(s)|)
  {
    var t := TrimStart(s);
    var r := TrimEnd(t);
    var i := |s| - |t|;
    SliceOfSuffix(s, i, |r|);
    forall k | i + |r| <= k < |s| ensures IsJsSpace(s[k]) {
      assert s[k] == t[k - i];
    }
    TrimmedAtIntro(s, r, i);
  }

  /** A prefix of a suffix is a slice. */
  lemma SliceOfSuffix(s: string, i: nat, n: nat)
    requires i + n <= |s|
    ensures s[i..][..n] == s[i..i + n]
  {
  }

  lemma TrimmedAtIntro(s: string, r: string, i: nat)
    requires i + |r| <= |s| && r == s[i..i + |r|]
    requires forall k :: 0 <= k < i ==> IsJsSpace(s[k])
    requires forall k :: i + |r| <= k < |s| ==> IsJsSpace(s[k])
    ensures TrimmedAt(s, r, i)
  {
  }

  lemma {:induction false} TrimIdempotent(s: string)
    ensures Trim(Trim(s)) == Trim(s)
  {
    var r := Trim(s);
    assert TrimStart(r) == r;
    assert TrimEnd(r) == r;
  }

  lemma {:induction false} LowerTrimStart(s: string)
    ensures ToLower(TrimStart(s)) == TrimStart(ToLower(s))
    decreases |s|
  {
    var l := ToLower(s);
    if |s| > 0 {
      assert l[0] == LowerChar(s[0]);
      assert IsJsSpace(l[0]) == IsJsSpace(s[0]);
      if IsJsSpace(s[0]) {
        assert l[1..] == ToLower(s[1..]);
        LowerTrimStart(s[1..]);
        assert TrimStart(s) == TrimStart(s[1..]);
        assert TrimStart(l) == TrimStart(l[1..]);
      } else {
        assert TrimStart(s) == s;
        assert TrimStart(l) == l;
      }
    }
  }

  lemma {:induction false} LowerTrimEnd(s: string)
    ensures ToLower(TrimEnd(s)) == TrimEnd(ToLower(s))
    decreases |s|
  {
    if |s| > 0 {
      assert ToLower(s)[..|s| - 1] == ToLower(s[..|s| - 1]);
      LowerTrimEnd(s[..|s| - 1]);
    }
  }

  /** Lower-casing and trimming commute, so the order in which a schema applies
      the two setters does not matter. */
  lemma LowerTrimCommute(s: string)
    ensures ToLower(Trim(s)) == Trim(ToLower(s))
  {
    LowerTrimStart(s);
    LowerTrimEnd(TrimStart(s));
    LowerTrimEnd(ToLower(s));
  }

  /** `s.split(sep)` for a one-character separator: the fields between
      separators, including empty ones; there is always at least one field. */
  function Split(s: string, sep: char): (r: seq<string>)
    ensures |r| >= 1
    ensures forall k :: 0 <= k < |r| ==> sep !in r[k]
  {
    if s == [] then [""]
    else
      var rest := Split(s[1..], sep);
      if s[0] == sep then [""] + rest
      else [[s[0]] + rest[0]] + rest[1..]
  }

  /** `fields.join(sep)`, the inverse of `Split`. */
  function Join(fields: seq<string>, sep: char): string {
    if fields == [] then ""
    else if |fields| == 1 then fields[0]
    else fields[0] + [sep] + Join(fields[1..], sep)
  }

  lemma {:induction false} JoinSplit(s: string, sep: char)
    ensures Join(Split(s, sep), sep) == s
  {
    if s != [] {
      var rest := Split(s[1..], sep);
      JoinSplit(s[1..], sep);
      if s[0] == sep {
        assert Split(s, sep)[1..] == rest;
      } else {
        var r := Split(s, sep);
        assert r[1..] == rest[1..];
        if |rest| > 1 {
          assert rest == [rest[0]] + rest[1..];
          assert Join(rest, sep) == rest[0] + [sep] + Join(rest[1..], sep);
        }
      }
    }
  }

  lemma {:induction false} SplitNoSeparator(s: string, sep: char)
    requires sep !in s
    ensures Split(s, sep) == [s]
  {
    if s != [] {
      SplitNoSeparator(s[1..], sep);
      assert s == [s[0]] + s[1..];
    }
  }

  /** Splitting a string that starts with a separator gives an empty first field. */
  lemma SplitLeadingSeparator(t: string, sep: char)
    requires t != [] && t[0] == sep
    ensures Split(t, sep) == [""] + Split(t[1..], sep)
  {
  }

  /** Splitting a string that starts with another character extends the first field. */
  lemma SplitLeadingOther(t: string, sep: char)
    requires t != [] && t[0] != sep
    ensures Split(t, sep) == [[t[0]] + Split(t[1..], sep)[0]] + Split(t[1..], sep)[1..]
  {
  }

  /** The first separator ends the first field; the rest splits on its own. */
  lemma {:induction false} SplitAtFirst(a: string, b: string, sep: char)
    requires sep !in a
    ensures Split(a + [sep] + b, sep) == [a] + Split(b, sep)
    decreases |a|
  {
    var t := a + [sep] + b;
    if a == [] {
      assert t[1..] == b;
      SplitLeadingSeparator(t, sep);
    } else {
      assert t[0] == a[0] && t[1..] == a[1..] + [sep] + b;
      SplitAtFirst(a[1..], b, sep);
      SplitLeadingOther(t, sep);
      assert [a[0]] + a[1..] == a;
    }
  }

  /** The first field is the longest prefix free of separators. */
  lemma {:induction false} SplitFirstField(s: string, sep: char)
    ensures sep !in Split(s, sep)[0]
    ensures Split(s, sep)[0] <= s
    ensures |Split(s, sep)[0]| < |s| ==> s[|Split(s, sep)[0]|] == sep
  {
    if s != [] {
      SplitFirstField(s[1..], sep);
      if s[0] == sep {
        SplitLeadingSeparator(s, sep);
      } else {
        SplitLeadingOther(s, sep);
      }
    }
  }

  /** There is a second field exactly when the separator occurs. */
  lemma SplitFieldCount(s: string, sep: char)
    ensures |Split(s, sep)| >= 2 <==> sep in s
  {
    if sep in s {
      FirstOccurrence(s, sep);
      var i :| 0 <= i < |s| && s[i] == sep && sep !in s[..i];
      assert s == s[..i] + [sep] + s[i + 1..];
      SplitAtFirst(s[..i], s[i + 1..], sep);
    } else {
      SplitNoSeparator(s, sep);
    }
  }

  /** A character that occurs in a string has a first occurrence. */
  lemma {:induction false} FirstOccurrence(s: string, c: char)
    requires c in s
    ensures exists i :: 0 <= i < |s| && s[i] == c && c !in s[..i]
  {
    if s[0] == c {
      assert s[..0] == [];
    } else {
      FirstOccurrence(s[1..], c);
      var i :| 0 <= i < |s[1..]| && s[1..][i] == c && c !in s[1..][..i];
      assert s[i + 1] == c;
      assert s[..i + 1] == [s[0]] + s[1..][..i];
    }
  }

  /** Does `p` occur in `s` starting at position `i`? */
  predicate OccursAt(p: string, s: string, i: nat) {
    i + |p| <= |s| && s[i..i + |p|] == p
  }

  /** Does `p` occur anywhere in `s`? */
  predicate IsSubstring(p: string, s: string) {
    exists i :: 0 <= i <= |s| && OccursAt(p, s, i)
  }

  /** A string without the first character of a non-empty pattern does not contain it. */
  lemma NoSubstringWithout(p: string, s: string)
    requires |p| > 0 && p[0] !in s
    ensures !IsSubstring(p, s)
  {
    forall i | 0 <= i < |s| ensures s[i] != p[0] {
      assert s[i] in s;
    }
    forall i | 0 <= i <= |s| ensures !OccursAt(p, s, i) {
      if i + |p| <= |s| {
        assert s[i..i + |p|][0] == s[i];
      }
    }
  }

  function DigitChar(d: nat): char
    requires d < 10
  {
    ('0' as int + d) as char
  }

  /** `String(n)` for a non-negative integer: its decimal digits, most
      significant first, without leading zeros. */
  function Decimal(n: nat): (r: string)
    ensures |r| >= 1
    ensures forall k :: 0 <= k < |r| ==> '0' <= r[k] <= '9'
    ensures r[0] == '0' ==> n == 0 && r == "0"
  {
    if n < 10 then [DigitChar(n)] else Decimal(n / 10) + [DigitChar(n % 10)]
  }

  /** Reads a string of decimal digits back as a number (what `Number(s)` does). */
  function ParseDecimal(s: string): nat
    requires forall k :: 0 <= k < |s| ==> '0' <= s[k] <= '9'
  {
    if s == [] then 0
    else ParseDecimal(s[..|s| - 1]) * 10 + (s[|s| - 1] as int - '0' as int)
  }

  /** The decimal rendering loses no information. */
  lemma {:induction false} ParseDecimalOfDecimal(n: nat)
    ensures ParseDecimal(Decimal(n)) == n
  {
    if n >= 10 {
      var r := Decimal(n);
      assert r[..|r| - 1] == Decimal(n / 10);
      ParseDecimalOfDecimal(n / 10);
    }
  }
}
