/** The JavaScript string primitives the backend relies on, over `string`:
    String.prototype.trim, toLowerCase, split on one character, a global
    literal replace (what `replace(new RegExp(p, 'g'), r)` does for a
    pattern without regular-expression metacharacters), the decimal
    rendering of an integer, and `length` and `substring(0, n)`, which
    count UTF-16 code units. A `char` is a Unicode scalar value, so a
    string is a sequence of code points: a character outside the Basic
    Multilingual Plane is one `char` but two code units, and a lone
    surrogate cannot be represented. */
module Text {

  /** The characters trim() removes: WhiteSpace and LineTerminator of
      ECMAScript, i.e. tab, vertical tab, form feed, space, no-break space,
      the byte-order mark, every space separator (category Zs) and the four
      line terminators. */
  predicate IsSpace(c: char) {
    var n := c as int;
    n == 0x09 || n == 0x0A || n == 0x0B || n == 0x0C || n == 0x0D || n == 0x20
    || n == 0xA0 || n == 0x1680 || (0x2000 <= n <= 0x200A) || n == 0x2028 || n == 0x2029
    || n == 0x202F || n == 0x205F || n == 0x3000 || n == 0xFEFF
  }

  /** True when every character of `s` is white space. */
  predicate AllSpace(s: string) {
    forall i :: 0 <= i < |s| ==> IsSpace(s[i])
  }

  /** The end of the run of white space that starts at `i`. */
  function SpaceAfter(s: string, i: nat): (j: nat)
    requires i <= |s|
    ensures i <= j <= |s|
    ensures forall k :: i <= k < j ==> IsSpace(s[k])
    ensures j == |s| || !IsSpace(s[j])
    decreases |s| - i
  {
    if i < |s| && IsSpace(s[i]) then SpaceAfter(s, i + 1) else i
  }

  /** The start of the run of white space that ends at `j`, going no
      further back than `lo`. */
  function SpaceBefore(s: string, j: nat, lo: nat): (i: nat)
    requires lo <= j <= |s|
    ensures lo <= i <= j
    ensures forall k :: i <= k < j ==> IsSpace(s[k])
    ensures i == lo || !IsSpace(s[i - 1])
    decreases j
  {
    if j > lo && IsSpace(s[j - 1]) then SpaceBefore(s, j - 1, lo) else j
  }

  /** Drops leading white space. */
  function TrimStart(s: string): (r: string)
    ensures |r| <= |s| && r == s[|s| - |r|..]
    ensures forall i :: 0 <= i < |s| - |r| ==> IsSpace(s[i])
    ensures r == [] || !IsSpace(r[0])
  {
    s[SpaceAfter(s, 0)..]
  }

  /** Drops trailing white space. */
  function TrimEnd(s: string): (r: string)
    ensures |r| <= |s| && r == s[..|r|]
    ensures forall i :: |r| <= i < |s| ==> IsSpace(s[i])
    ensures r == [] || !IsSpace(r[|r| - 1])
  {
    s[..SpaceBefore(s, |s|, 0)]
  }

  /** How many leading white-space characters `s` has. */
  function LeadingSpace(s: string): (n: nat)
    ensures n <= |s|
    ensures n == |s| - |TrimStart(s)|
  {
    SpaceAfter(s, 0)
  }

  /** String.prototype.trim: the longest middle slice of `s` that neither
      starts nor ends with white space; all that is removed is white space. */
  function Trim(s: string): (r: string)
    ensures r == [] || (!IsSpace(r[0]) && !IsSpace(r[|r| - 1]))
    ensures LeadingSpace(s) + |r| <= |s|
    ensures r == s[LeadingSpace(s)..LeadingSpace(s) + |r|]
    ensures forall k :: 0 <= k < LeadingSpace(s) ==> IsSpace(s[k])
    ensures forall k :: LeadingSpace(s) + |r| <= k < |s| ==> IsSpace(s[k])
  {
    var a := SpaceAfter(s, 0);
    s[a..SpaceBefore(s, |s|, a)]
  }

  /** A string with no white space at either end is its own trim. */
  lemma TrimFixed(s: string)
    requires s == [] || (!IsSpace(s[0]) && !IsSpace(s[|s| - 1]))
    ensures Trim(s) == s
  {
  }

  lemma TrimIdempotent(s: string)
    ensures Trim(Trim(s)) == Trim(s)
  {
    TrimFixed(Trim(s));
  }

  lemma TrimEmptyIffAllSpace(s: string)
    ensures Trim(s) == [] <==> AllSpace(s)
  {
    var a := SpaceAfter(s, 0);
    var b := SpaceBefore(s, |s|, a);
    assert |Trim(s)| == b - a;
  }

  /** The trim of `x` is the one slice with only white space around it and
      no white space at its ends. */
  lemma TrimUnique(x: string, a: nat, r: string)
    requires a + |r| <= |x| && r == x[a..a + |r|]
    requires forall k :: 0 <= k < a ==> IsSpace(x[k])
    requires forall k :: a + |r| <= k < |x| ==> IsSpace(x[k])
    requires r == [] || (!IsSpace(r[0]) && !IsSpace(r[|r| - 1]))
    ensures Trim(x) == r
  {
    var t, b := Trim(x), LeadingSpace(x);
    if r == [] {
      assert AllSpace(x);
      TrimEmptyIffAllSpace(x);
    } else {
      assert x[a] == r[0] && x[a + |r| - 1] == r[|r| - 1];
      assert t != [] by {
        TrimEmptyIffAllSpace(x);
      }
      assert x[b] == t[0] && x[b + |t| - 1] == t[|t| - 1];
      assert b == a;
      assert b + |t| == a + |r|;
    }
  }

  /** White space around a string does not change its trim. */
  lemma TrimPadded(p: string, s: string, q: string)
    requires AllSpace(p) && AllSpace(q)
    ensures Trim(p + s + q) == Trim(s)
  {
    var x, r, a := p + s + q, Trim(s), LeadingSpace(s);
    assert x[|p| + a..|p| + a + |r|] == s[a..a + |r|];
    TrimUnique(x, |p| + a, r);
  }

  /** toLowerCase on the characters it is modelled for: ASCII A-Z and the
      Latin-1 capitals U+00C0-U+00DE other than U+00D7; any other character
      is left as it is. */
  function LowerChar(c: char): (r: char)
  {
    var n := c as int;
    if (0x41 <= n <= 0x5A) || (0xC0 <= n <= 0xDE && n != 0xD7) then (n + 32) as char
    else c
  }

  lemma LowerCharIdempotent(c: char)
    ensures LowerChar(LowerChar(c)) == LowerChar(c)
  {
  }

  lemma LowerCharKeepsSpace(c: char)
    ensures IsSpace(LowerChar(c)) <==> IsSpace(c)
  {
  }

  /** String.prototype.toLowerCase, character by character. */
  function Lower(s: string): (r: string)
    ensures |r| == |s|
    ensures forall i :: 0 <= i < |s| ==> r[i] == LowerChar(s[i])
  {
    seq(|s|, i requires 0 <= i < |s| => LowerChar(s[i]))
  }

  lemma LowerIdempotent(s: string)
    ensures Lower(Lower(s)) == Lower(s)
  {
    forall i | 0 <= i < |s|
      ensures Lower(Lower(s))[i] == Lower(s)[i]
    {
      LowerCharIdempotent(s[i]);
    }
  }

  /** A slice of a lower-cased string is unchanged by lower-casing. */
  lemma LowerSlice(s: string, i: nat, j: nat)
    requires i <= j <= |s|
    ensures Lower(Lower(s)[i..j]) == Lower(s)[i..j]
  {
    forall k | 0 <= k < j - i
      ensures Lower(Lower(s)[i..j])[k] == Lower(s)[i..j][k]
    {
      LowerCharIdempotent(s[i + k]);
    }
  }

  /** "a,b,,c" split on ',' is ["a", "b", "", "c"]; a string without the
      separator is a single piece, so the result is never empty. */
  function Split(s: string, sep: char): (r: seq<string>)
    ensures |r| >= 1
    ensures forall k :: 0 <= k < |r| ==> sep !in r[k]
    ensures sep !in s ==> r == [s]
    decreases |s|
  {
    if sep !in s then [s]
    else
      var i := IndexOf(s, sep);
      [s[..i]] + Split(s[i + 1..], sep)
  }

  /** Position of the first occurrence of `c` in `s`. */
  function IndexOf(s: string, c: char): (i: nat)
    requires c in s
    ensures i < |s| && s[i] == c && c !in s[..i]
  {
    if s[0] == c then 0 else 1 + IndexOf(s[1..], c)
  }

  /** Array.prototype.join with a one-character separator. */
  function Join(parts: seq<string>, sep: char): (r: string)
    ensures parts == [] ==> r == []
  {
    if parts == [] then []
    else if |parts| == 1 then parts[0]
    else parts[0] + [sep] + Join(parts[1..], sep)
  }

  /** Joining the pieces of a split restores the original string. */
  lemma {:induction false} JoinSplit(s: string, sep: char)
    ensures Join(Split(s, sep), sep) == s
    decreases |s|
  {
    if sep in s {
      var i := IndexOf(s, sep);
      JoinSplit(s[i + 1..], sep);
      assert s == s[..i] + [sep] + s[i + 1..];
    }
  }

  /** Whether `pat` occurs in `s` starting at position `i`. */
  predicate OccursAt(s: string, pat: string, i: int) {
    0 <= i && i + |pat| <= |s| && s[i..i + |pat|] == pat
  }

  /** Replaces, scanning left to right, every non-overlapping occurrence of
      a non-empty `pat` in `s` by `rep`; what `rep` introduces is not
      scanned again. */
  function ReplaceAll(s: string, pat: string, rep: string): (r: string)
    requires |pat| > 0
    decreases |s|
  {
    if |s| < |pat| then s
    else if s[..|pat|] == pat then rep + ReplaceAll(s[|pat|..], pat, rep)
    else [s[0]] + ReplaceAll(s[1..], pat, rep)
  }

  /** Where the pattern does not occur, nothing is replaced. */
  lemma {:induction false} ReplaceAbsent(s: string, pat: string, rep: string)
    requires |pat| > 0
    requires forall i :: !OccursAt(s, pat, i)
    ensures ReplaceAll(s, pat, rep) == s
    decreases |s|
  {
    if |s| >= |pat| {
      assert !OccursAt(s, pat, 0);
      forall i
        ensures OccursAt(s[1..], pat, i) == OccursAt(s, pat, i + 1)
      {
        if 0 <= i && i + |pat| <= |s| - 1 {
          assert s[1..][i..i + |pat|] == s[i + 1..i + 1 + |pat|];
        }
      }
      ReplaceAbsent(s[1..], pat, rep);
    }
  }

  /** Replacing the pattern by itself changes nothing. */
  lemma {:induction false} ReplaceBySelf(s: string, pat: string)
    requires |pat| > 0
    ensures ReplaceAll(s, pat, pat) == s
    decreases |s|
  {
    if |s| >= |pat| {
      if s[..|pat|] == pat {
        ReplaceBySelf(s[|pat|..], pat);
        assert s == s[..|pat|] + s[|pat|..];
      } else {
        ReplaceBySelf(s[1..], pat);
        assert s == [s[0]] + s[1..];
      }
    }
  }

  /** An occurrence at the front is replaced, and the rest is processed. */
  lemma ReplaceFront(pat: string, rest: string, rep: string)
    requires |pat| > 0
    ensures ReplaceAll(pat + rest, pat, rep) == rep + ReplaceAll(rest, pat, rep)
  {
    assert (pat + rest)[..|pat|] == pat;
    assert (pat + rest)[|pat|..] == rest;
  }

  function DigitChar(d: nat): (c: char)
    requires d < 10
    ensures '0' <= c <= '9'
  {
    ['0', '1', '2', '3', '4', '5', '6', '7', '8', '9'][d]
  }

  function NatToString(n: nat): (r: string)
    ensures |r| >= 1
    ensures forall k :: 0 <= k < |r| ==> '0' <= r[k] <= '9'
  {
    if n < 10 then [DigitChar(n)] else NatToString(n / 10) + [DigitChar(n % 10)]
  }

  /** String(n) for an integer: optional minus sign, then decimal digits. */
  function IntToString(n: int): (r: string)
    ensures |r| >= 1
    ensures forall k :: 0 <= k < |r| ==> r[k] == '-' || '0' <= r[k] <= '9'
  {
    if n < 0 then "-" + NatToString(-n) else NatToString(n)
  }

  /** How many UTF-16 code units a character takes. */
  function Units(c: char): (n: nat)
    ensures n == 1 || n == 2
    ensures n == 2 <==> c as int >= 0x10000
  {
    if c as int >= 0x10000 then 2 else 1
  }

  /** Every character of `s` lies in the Basic Multilingual Plane, where
      one character is one code unit. */
  predicate Bmp(s: string) {
    forall i :: 0 <= i < |s| ==> s[i] as int < 0x10000
  }

  lemma BmpPrefix(s: string, k: nat)
    requires Bmp(s) && k <= |s|
    ensures Bmp(s[..k])
  {
    forall i | 0 <= i < k
      ensures s[..k][i] as int < 0x10000
    {
      assert s[..k][i] == s[i];
    }
  }

  /** `s.length` in JavaScript: the number of UTF-16 code units. */
  function Utf16Length(s: string): (n: nat)
    ensures |s| <= n <= 2 * |s|
    ensures Bmp(s) ==> n == |s|
  {
    if s == [] then 0 else Units(s[0]) + Utf16Length(s[1..])
  }

  /** The length of a string with one more character at the end. */
  lemma {:induction false} Utf16LengthSnoc(s: string, c: char)
    ensures Utf16Length(s + [c]) == Utf16Length(s) + Units(c)
  {
    if s != [] {
      assert (s + [c])[1..] == s[1..] + [c];
      Utf16LengthSnoc(s[1..], c);
    }
  }

  /** The longest prefix of `s` that fits in `n` code units: what
      `s.substring(0, n)` keeps, except that where the cut falls inside a
      surrogate pair JavaScript keeps the lone first half, which a string
      here cannot hold. */
  function Utf16Prefix(s: string, n: nat): (p: string)
    ensures |p| <= |s| && p == s[..|p|] && Utf16Length(p) <= n
    ensures |p| < |s| ==> Utf16Length(s[..|p| + 1]) > n
    ensures Utf16Length(s) <= n <==> p == s
  {
    if s == [] then []
    else if Units(s[0]) > n then
      assert s[..1] == [s[0]];
      []
    else
      var rest := Utf16Prefix(s[1..], n - Units(s[0]));
      PrefixStep(s, rest);
      [s[0]] + rest
  }

  lemma PrefixStep(s: string, rest: string)
    requires |s| > 0 && |rest| <= |s| - 1 && rest == s[1..][..|rest|]
    ensures [s[0]] + rest == s[..|rest| + 1] && ([s[0]] + rest)[1..] == rest
    ensures |rest| < |s| - 1 ==> s[..|rest| + 2][1..] == s[1..][..|rest| + 1] && s[..|rest| + 2][0] == s[0]
  {
  }

  /** On text inside the Basic Multilingual Plane a code unit is a
      character, so the prefix is the plain slice. */
  lemma Utf16PrefixBmp(s: string, n: nat)
    requires Bmp(s) && n < |s|
    ensures Utf16Prefix(s, n) == s[..n]
  {
    var p := Utf16Prefix(s, n);
    BmpPrefix(s, |p|);
    BmpPrefix(s, |p| + 1);
    assert |p| == n;
  }
}
