/**
 * The Kotlin standard-library string rules the app relies on: `isWhitespace`, `isBlank`,
 * `trim`, `contains(ignoreCase = true)`, `split`, `Int.toString` and `String.toIntOrNull`.
 * Whitespace, case folding and digits are the ASCII parts of Kotlin's Unicode rules.
 */
module Text {
  import opened Wrappers

  /** A Kotlin `Int`. */
  type Int32 = x: int | -0x8000_0000 <= x <= 0x7FFF_FFFF

  /** `Char.isWhitespace` on ASCII: HT, LF, VT, FF, CR, the four separators FS..US, and space. */
  predicate IsSpace(c: char) {
    ('\t' <= c <= '\r') || ('\U{1C}' <= c <= ' ')
  }

  /** `CharSequence.isBlank`: empty or only whitespace. */
  predicate IsBlank(s: string) {
    forall i :: 0 <= i < |s| ==> IsSpace(s[i])
  }

  /** The number of whitespace characters at the start of `s`. */
  function LeadingSpaces(s: string): (n: nat)
    ensures n <= |s|
    ensures IsBlank(s[..n])
    ensures n < |s| ==> !IsSpace(s[n])
  {
    if s != [] && IsSpace(s[0]) then
      var n := 1 + LeadingSpaces(s[1..]);
      assert s[..n] == [s[0]] + s[1..][..n - 1];
      n
    else 0
  }

  /** `s` without its trailing whitespace. */
  function TrimEnd(s: string): (r: string)
    ensures |r| <= |s| && r == s[..|r|]
    ensures IsBlank(s[|r|..])
    ensures r == [] || !IsSpace(r[|r| - 1])
  {
    if s != [] && IsSpace(s[|s| - 1]) then
      var r := TrimEnd(s[..|s| - 1]);
      assert s[|r|..] == s[..|s| - 1][|r|..] + [s[|s| - 1]];
      r
    else s
  }

  /** `String.trim()`: the slice of `s` left after cutting whitespace from both ends. */
  function Trim(s: string): (r: string)
    ensures LeadingSpaces(s) + |r| <= |s|
    ensures r == s[LeadingSpaces(s)..LeadingSpaces(s) + |r|]
    ensures IsBlank(s[..LeadingSpaces(s)]) && IsBlank(s[LeadingSpaces(s) + |r|..])
    ensures r == [] || (!IsSpace(r[0]) && !IsSpace(r[|r| - 1]))
    ensures r == [] <==> IsBlank(s)
  {
    var n := LeadingSpaces(s);
    var r := TrimEnd(s[n..]);
    TrimSlice(s, n, r);
    TrimEmpty(s, n, r);
    r
  }

  lemma TrimSlice(s: string, n: nat, r: string)
    requires n <= |s| && r == TrimEnd(s[n..])
    ensures n + |r| <= |s| && r == s[n..n + |r|]
    ensures IsBlank(s[n + |r|..])
  {
    assert s[n + |r|..] == s[n..][|r|..];
  }

  lemma TrimEmpty(s: string, n: nat, r: string)
    requires n == LeadingSpaces(s) && r == TrimEnd(s[n..])
    ensures r == [] || (!IsSpace(r[0]) && !IsSpace(r[|r| - 1]))
    ensures r == [] <==> IsBlank(s)
  {
    TrimSlice(s, n, r);
    if r == [] {
      BlankConcat(s[..n], s[n..]);
      assert s == s[..n] + s[n..];
    } else {
      assert r[0] == s[n];
    }
  }

  lemma BlankConcat(a: string, b: string)
    requires IsBlank(a) && IsBlank(b)
    ensures IsBlank(a + b)
  {
  }

  /** Trimming twice is trimming once. */
  lemma {:induction false} TrimIdempotent(s: string)
    ensures Trim(Trim(s)) == Trim(s)
  {
    var r := Trim(s);
    if r != [] {
      assert LeadingSpaces(r) == 0;
      assert r[0..] == r;
    }
  }

  /** ASCII `Char.lowercaseChar`. */
  function Lower(c: char): char {
    if 'A' <= c <= 'Z' then (c as int + 32) as char else c
  }

  function LowerAll(s: string): (r: string)
    ensures |r| == |s|
    ensures forall i :: 0 <= i < |s| ==> r[i] == Lower(s[i])
  {
    if s == [] then [] else [Lower(s[0])] + LowerAll(s[1..])
  }

  /** `h` has `n` at offset `i`. */
  predicate OccursAt(h: string, n: string, i: int) {
    0 <= i && i + |n| <= |h| && h[i..i + |n|] == n
  }

  /** `CharSequence.contains(other)`: `n` occurs somewhere in `h`. */
  function Contains(h: string, n: string): (r: bool)
    ensures r <==> exists i :: OccursAt(h, n, i)
    decreases |h|
  {
    if |n| > |h| then false
    else if h[..|n|] == n then
      assert OccursAt(h, n, 0);
      true
    else
      var t := h[1..];
      var r := Contains(t, n);
      assert forall i :: OccursAt(t, n, i) ==> OccursAt(h, n, i + 1) by {
        forall i | OccursAt(t, n, i) ensures OccursAt(h, n, i + 1) {
          assert t[i..i + |n|] == h[i + 1..i + 1 + |n|];
        }
      }
      assert forall i :: OccursAt(h, n, i) ==> OccursAt(t, n, i - 1) by {
        forall i | OccursAt(h, n, i) ensures OccursAt(t, n, i - 1) {
          assert i != 0;
          assert t[i - 1..i - 1 + |n|] == h[i..i + |n|];
        }
      }
      r
  }

  /** `contains(other, ignoreCase = true)`, with ASCII case folding. */
  function ContainsIgnoreCase(h: string, n: string): bool {
    Contains(LowerAll(h), LowerAll(n))
  }

  /** A non-empty needle never occurs in the empty string. */
  lemma EmptyContainsNothing(n: string)
    requires n != []
    ensures !ContainsIgnoreCase("", n)
  {
  }

  /** The number of occurrences of `c` in `s`. */
  function Count(s: string, c: char): nat {
    if s == [] then 0 else (if s[0] == c then 1 else 0) + Count(s[1..], c)
  }

  /** `String.split(sep)` for a one-character delimiter; empty pieces, trailing ones too, are kept. */
  function Split(s: string, sep: char): (r: seq<string>)
    ensures |r| == Count(s, sep) + 1
    ensures forall k :: 0 <= k < |r| ==> sep !in r[k]
  {
    if s == [] then [[]]
    else
      var rest := Split(s[1..], sep);
      if s[0] == sep then [[]] + rest else [[s[0]] + rest[0]] + rest[1..]
  }

  /** `joinToString(sep)`: the inverse of `Split`. */
  function Join(xs: seq<string>, sep: string): string {
    if xs == [] then []
    else if |xs| == 1 then xs[0]
    else xs[0] + sep + Join(xs[1..], sep)
  }

  /** Joining the pieces of a split gives back the text. */
  lemma {:induction false} JoinSplit(s: string, sep: char)
    ensures Join(Split(s, sep), [sep]) == s
  {
    if s != [] {
      var rest := Split(s[1..], sep);
      JoinSplit(s[1..], sep);
      if s[0] == sep {
        assert Split(s, sep) == [[]] + rest;
      } else {
        assert Split(s, sep) == [[s[0]] + rest[0]] + rest[1..];
        if |rest| > 1 {
          assert rest == [rest[0]] + rest[1..];
        }
      }
    }
  }

  /** A piece free of the delimiter, followed by the delimiter, splits off as one piece. */
  lemma {:induction false} SplitAfterPiece(a: string, sep: char, b: string)
    requires sep !in a
    ensures Split(a + [sep] + b, sep) == [a] + Split(b, sep)
  {
    if a != [] {
      var s := a + [sep] + b;
      assert s[0] == a[0] && s[0] != sep;
      assert s[1..] == a[1..] + [sep] + b;
      SplitAfterPiece(a[1..], sep, b);
      assert Split(s, sep) == [[a[0]] + a[1..]] + Split(b, sep);
      assert [a[0]] + a[1..] == a;
    } else {
      assert a + [sep] + b == [sep] + b;
    }
  }

  /** Splitting at one delimiter splits the two sides independently. */
  lemma {:induction false} SplitSep(a: string, sep: char, b: string)
    ensures Split(a + [sep] + b, sep) == Split(a, sep) + Split(b, sep)
  {
    var s := a + [sep] + b;
    if a == [] {
      assert s == [sep] + b;
    } else {
      assert s[0] == a[0] && s[1..] == a[1..] + [sep] + b;
      SplitSep(a[1..], sep, b);
      var ra := Split(a[1..], sep);
      if a[0] != sep {
        assert Split(s, sep) == [[a[0]] + ra[0]] + ra[1..] + Split(b, sep);
      }
    }
  }

  /** The pieces of every text of `xs` split at `sep`, one after the other. */
  function SplitAll(xs: seq<string>, sep: char): seq<string> {
    if xs == [] then [] else Split(xs[0], sep) + SplitAll(xs[1..], sep)
  }

  lemma SplitAllCons(x: string, ys: seq<string>, sep: char)
    ensures SplitAll([x] + ys, sep) == Split(x, sep) + SplitAll(ys, sep)
  {
    assert ([x] + ys)[1..] == ys;
  }

  lemma {:induction false} SplitAllConcat(xs: seq<string>, ys: seq<string>, sep: char)
    ensures SplitAll(xs + ys, sep) == SplitAll(xs, sep) + SplitAll(ys, sep)
  {
    if xs == [] {
      assert xs + ys == ys;
    } else {
      assert (xs + ys)[0] == xs[0] && (xs + ys)[1..] == xs[1..] + ys;
      SplitAllConcat(xs[1..], ys, sep);
    }
  }

  lemma SplitAll2(x0: string, x1: string, sep: char)
    ensures SplitAll([x0, x1], sep) == Split(x0, sep) + Split(x1, sep)
  {
    SplitAllCons(x1, [], sep);
    SplitAllCons(x0, [x1], sep);
    assert [x1] + [] == [x1];
    assert [x0] + [x1] == [x0, x1];
  }

  lemma SplitAll3(x0: string, x1: string, x2: string, sep: char)
    ensures SplitAll([x0, x1, x2], sep) == Split(x0, sep) + (Split(x1, sep) + Split(x2, sep))
  {
    SplitAll2(x1, x2, sep);
    SplitAllCons(x0, [x1, x2], sep);
    assert [x0] + [x1, x2] == [x0, x1, x2];
  }

  /** `appendLine` applied to each of `xs` in turn, starting from the empty text. */
  function Lines(xs: seq<string>): string {
    if xs == [] then [] else xs[0] + "\n" + Lines(xs[1..])
  }

  /** Text built line by line splits into the pieces of each line in turn, plus the empty last piece. */
  lemma {:induction false} SplitLinesAll(xs: seq<string>)
    ensures Split(Lines(xs), '\n') == SplitAll(xs, '\n') + [""]
  {
    if xs != [] {
      SplitSep(xs[0], '\n', Lines(xs[1..]));
      SplitLinesAll(xs[1..]);
    }
  }

  /** Lines without a line break of their own split back into themselves, plus the empty last piece. */
  lemma {:induction false} SplitLines(xs: seq<string>)
    requires forall k :: 0 <= k < |xs| ==> '\n' !in xs[k]
    ensures Split(Lines(xs), '\n') == xs + [""]
  {
    if xs != [] {
      SplitAfterPiece(xs[0], '\n', Lines(xs[1..]));
      SplitLines(xs[1..]);
    }
  }

  predicate IsDigit(c: char) {
    '0' <= c <= '9'
  }

  predicate AllDigits(s: string) {
    forall i :: 0 <= i < |s| ==> IsDigit(s[i])
  }

  function DigitChar(d: nat): (c: char)
    requires d < 10
    ensures IsDigit(c)
  {
    ('0' as int + d) as char
  }

  function DigitValue(c: char): (d: nat)
    requires IsDigit(c)
    ensures d < 10
  {
    c as int - '0' as int
  }

  /** The number a string of decimal digits denotes. */
  function DigitsValue(s: string): nat
    requires AllDigits(s)
  {
    if s == [] then 0 else 10 * DigitsValue(s[..|s| - 1]) + DigitValue(s[|s| - 1])
  }

  /** Decimal digits of `n`, without leading zeros. */
  function NatToString(n: nat): (s: string)
    ensures s != [] && AllDigits(s)
    ensures |s| > 1 ==> s[0] != '0'
  {
    if n < 10 then [DigitChar(n)] else NatToString(n / 10) + [DigitChar(n % 10)]
  }

  lemma {:induction false} DigitsOfNat(n: nat)
    ensures DigitsValue(NatToString(n)) == n
  {
    if n >= 10 {
      var s := NatToString(n);
      assert s[..|s| - 1] == NatToString(n / 10);
      DigitsOfNat(n / 10);
    }
  }

  /** `Int.toString()`, as a string template `"$n"` uses it. */
  function IntToString(n: int): (s: string)
    ensures s != [] && forall i :: 0 <= i < |s| ==> IsDigit(s[i]) || (i == 0 && s[i] == '-')
    ensures (s[0] == '-') <==> n < 0
  {
    if n < 0 then "-" + NatToString(-n) else NatToString(n)
  }

  /** `String.toIntOrNull()`: an optional sign, then one or more digits, within the range of `Int`. */
  function ParseInt(s: string): (r: Option<Int32>)
    ensures r.Some? ==> s != [] && forall i :: 0 <= i < |s| ==> !IsSpace(s[i])
  {
    if s == [] then None
    else if s[0] == '-' || s[0] == '+' then
      if |s| == 1 || !AllDigits(s[1..]) then None
      else
        var d: int := DigitsValue(s[1..]);
        var v := if s[0] == '-' then -d else d;
        if -0x8000_0000 <= v <= 0x7FFF_FFFF then Some(v) else None
    else if !AllDigits(s) then None
    else
      var v := DigitsValue(s);
      if v <= 0x7FFF_FFFF then Some(v) else None
  }

  /** Every `Int` survives printing and parsing back. */
  lemma {:induction false} ParseIntToString(n: Int32)
    ensures ParseInt(IntToString(n)) == Some(n)
  {
    var s := IntToString(n);
    if n < 0 {
      var m: nat := -(n as int);
      var t := NatToString(m);
      DigitsOfNat(m);
      assert s == "-" + t && s[1..] == t;
      assert DigitsValue(s[1..]) == m;
    } else {
      DigitsOfNat(n);
      assert IsDigit(s[0]) && s[0] != '-' && s[0] != '+';
    }
  }
}
