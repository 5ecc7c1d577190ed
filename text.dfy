/**
  * The string operations of JavaScript that the views rely on: the relational
  * operators on strings (lexicographic, character by character), `trim`,
  * `toLowerCase`, `includes`, and the digit strings produced when a clock
  * reading is turned into text.
  */
module Text {

  // ---------------------------------------------------------------------------
  // a < b, a <= b on strings
  // ---------------------------------------------------------------------------

  /** `a < b` on strings: the first differing character decides; a proper prefix is smaller. */
  predicate StrLt(a: string, b: string)
  {
    if a == [] then b != []
    else if b == [] then false
    else if a[0] != b[0] then a[0] < b[0]
    else StrLt(a[1..], b[1..])
  }

  /** `a <= b` on strings, which JavaScript evaluates as `!(b < a)`. */
  predicate StrLe(a: string, b: string)
  {
    !StrLt(b, a)
  }

  lemma {:induction false} StrLtIrreflexive(a: string)
    ensures !StrLt(a, a)
  {
    if a != [] {
      StrLtIrreflexive(a[1..]);
    }
  }

  lemma {:induction false} StrLtTransitive(a: string, b: string, c: string)
    requires StrLt(a, b) && StrLt(b, c)
    ensures StrLt(a, c)
  {
    if a != [] && b != [] && c != [] && a[0] == b[0] && b[0] == c[0] {
      StrLtTransitive(a[1..], b[1..], c[1..]);
    }
  }

  /** Two different strings are always ordered one way or the other. */
  lemma {:induction false} StrLtTotal(a: string, b: string)
    ensures a == b || StrLt(a, b) || StrLt(b, a)
  {
    if a != [] && b != [] && a[0] == b[0] {
      StrLtTotal(a[1..], b[1..]);
      if a[1..] == b[1..] {
        assert a == [a[0]] + a[1..] && b == [b[0]] + b[1..];
      }
    }
  }

  /** Hence `<=` is a total order on strings: reflexive, antisymmetric and transitive. */
  lemma StrLeTotalOrder(a: string, b: string, c: string)
    ensures StrLe(a, a)
    ensures StrLe(a, b) || StrLe(b, a)
    ensures StrLe(a, b) && StrLe(b, a) ==> a == b
    ensures StrLe(a, b) && StrLe(b, c) ==> StrLe(a, c)
  {
    StrLtIrreflexive(a);
    StrLtTotal(a, b);
    StrLtTotal(b, c);
    StrLtTotal(a, c);
    if StrLt(c, a) && StrLe(a, b) && StrLe(b, c) {
      if a == b {
        return;
      }
      StrLtTransitive(a, b, c);
      StrLtTransitive(a, c, a);
      StrLtIrreflexive(a);
    }
    if StrLt(b, a) && StrLt(a, b) {
      StrLtTransitive(a, b, a);
    }
  }

  // ---------------------------------------------------------------------------
  // toLowerCase and includes
  // ---------------------------------------------------------------------------

  /**
    * `toLowerCase` on one character, for the scripts the diary's data is written
    * in: Basic Latin and the Cyrillic block up to U+042F. Other characters are
    * left as they are.
    */
  function LowerChar(c: char): (r: char)
  {
    if 'A' <= c <= 'Z' then (c as int + 32) as char
    else if '\U{0410}' <= c <= '\U{042F}' then (c as int + 32) as char
    else if '\U{0400}' <= c <= '\U{040F}' then (c as int + 80) as char
    else c
  }

  function Lower(s: string): (r: string)
    ensures |r| == |s|
    ensures forall i :: 0 <= i < |s| ==> r[i] == LowerChar(s[i])
  {
    seq(|s|, i requires 0 <= i < |s| => LowerChar(s[i]))
  }

  /** `needle` occurs in `hay` starting at index `i`. */
  predicate OccursAt(hay: string, needle: string, i: int)
  {
    0 <= i && i + |needle| <= |hay| && hay[i..i + |needle|] == needle
  }

  /** `hay.includes(needle)`: `needle` occurs somewhere in `hay` as a contiguous piece. */
  predicate Contains(hay: string, needle: string)
  {
    exists i :: 0 <= i <= |hay| && OccursAt(hay, needle, i)
  }

  /** Every string includes the empty string. */
  lemma ContainsEmpty(hay: string)
    ensures Contains(hay, "")
  {
    assert OccursAt(hay, "", 0);
  }

  /** A string includes each of its contiguous pieces, itself among them. */
  lemma ContainsSlice(hay: string, i: nat, j: nat)
    requires i <= j <= |hay|
    ensures Contains(hay, hay[i..j])
  {
    assert OccursAt(hay, hay[i..j], i);
  }

  // ---------------------------------------------------------------------------
  // trim
  // ---------------------------------------------------------------------------

  /** The characters `trim` removes: ECMAScript's white space and line terminators. */
  predicate IsSpace(c: char)
  {
    || c == '\t' || c == '\n' || c == '\U{000B}' || c == '\U{000C}' || c == '\r' || c == ' '
    || c == '\U{00A0}' || c == '\U{1680}' || ('\U{2000}' <= c <= '\U{200A}')
    || c == '\U{2028}' || c == '\U{2029}' || c == '\U{202F}' || c == '\U{205F}'
    || c == '\U{3000}' || c == '\U{FEFF}'
  }

  /** Drops the leading white space: what is left is a suffix starting with a non-space. */
  function TrimStart(s: string): (r: string)
    ensures |r| <= |s| && r == s[|s| - |r|..]
    ensures forall k :: 0 <= k < |s| - |r| ==> IsSpace(s[k])
    ensures r != [] ==> !IsSpace(r[0])
  {
    if s != [] && IsSpace(s[0]) then TrimStart(s[1..]) else s
  }

  /** Drops the trailing white space: what is left is a prefix ending in a non-space. */
  function TrimEnd(s: string): (r: string)
    ensures |r| <= |s| && r == s[..|r|]
    ensures forall k :: |r| <= k < |s| ==> IsSpace(s[k])
    ensures r != [] ==> !IsSpace(r[|r| - 1])
  {
    if s != [] && IsSpace(s[|s| - 1]) then TrimEnd(s[..|s| - 1]) else s
  }

  /** `s.trim()`. */
  function Trim(s: string): string
  {
    TrimEnd(TrimStart(s))
  }

  /** `r` occurs in `s` at index `i`, with only white space before it and after it. */
  ghost predicate PaddedAt(s: string, r: string, i: int)
  {
    && OccursAt(s, r, i)
    && (forall k :: 0 <= k < i ==> IsSpace(s[k]))
    && (forall k :: i + |r| <= k < |s| ==> IsSpace(s[k]))
  }

  /**
    * What `trim` leaves: a contiguous piece of `s` with only white space
    * around it in `s`, neither starting nor ending with white space itself.
    */
  lemma TrimIsPiece(s: string)
    ensures exists i :: 0 <= i <= |s| && PaddedAt(s, Trim(s), i)
    ensures Trim(s) != [] ==> !IsSpace(Trim(s)[0]) && !IsSpace(Trim(s)[|Trim(s)| - 1])
  {
    var t := TrimStart(s);
    var r := TrimEnd(t);
    var i := |s| - |t|;
    PaddedAtSuffixPrefix(s, t, r, i);
    TrimEnds(t, r);
    assert r == Trim(s);
  }

  /** Cutting trailing white space off a string that starts with a non-space leaves non-space ends. */
  lemma TrimEnds(t: string, r: string)
    requires r == TrimEnd(t) && (t != [] ==> !IsSpace(t[0]))
    ensures r != [] ==> !IsSpace(r[0]) && !IsSpace(r[|r| - 1])
  {
    assert r != [] ==> r[0] == t[0];
  }

  /** A prefix `r` of a suffix `t` of `s`, each cut off at white space only, is padded in `s`. */
  lemma PaddedAtSuffixPrefix(s: string, t: string, r: string, i: int)
    requires 0 <= i <= |s| && t == s[i..] && |r| <= |t| && r == t[..|r|]
    requires forall k :: 0 <= k < i ==> IsSpace(s[k])
    requires forall k :: |r| <= k < |t| ==> IsSpace(t[k])
    ensures PaddedAt(s, r, i)
  {
    assert s[i..i + |r|] == r;
    forall k | i + |r| <= k < |s|
      ensures IsSpace(s[k])
    {
      assert s[k] == t[k - i];
    }
  }

  /** A string trims to nothing exactly when every character of it is white space. */
  lemma TrimEmptyIff(s: string)
    ensures Trim(s) == [] <==> forall i :: 0 <= i < |s| ==> IsSpace(s[i])
  {
    var t := TrimStart(s);
    assert t != [] ==> TrimEnd(t) != [];
  }

  // ---------------------------------------------------------------------------
  // digits of a clock reading
  // ---------------------------------------------------------------------------

  function Digit(d: nat): (c: char)
    requires d < 10
    ensures '0' <= c <= '9'
  {
    (48 + d) as char
  }

  /** A number below 100 as exactly two digits, zero-padded (`padStart(2, '0')`, `HH`, `mm`). */
  function TwoDigits(n: nat): (r: string)
    requires n < 100
    ensures |r| == 2
  {
    [Digit(n / 10), Digit(n % 10)]
  }

  /** A number below 100 as JavaScript prints it: one digit below 10, two otherwise. */
  function Decimal(n: nat): (r: string)
    requires n < 100
    ensures |r| == if n < 10 then 1 else 2
    ensures r[0] == Digit(if n < 10 then n else n / 10)
  {
    if n < 10 then [Digit(n)] else TwoDigits(n)
  }

  /** Zero-padded two-digit strings compare like the numbers they spell. */
  lemma TwoDigitsOrder(a: nat, b: nat)
    requires a < 100 && b < 100
    ensures StrLt(TwoDigits(a), TwoDigits(b)) <==> a < b
  {
    var x, y := TwoDigits(a), TwoDigits(b);
    assert a == 10 * (a / 10) + a % 10 && b == 10 * (b / 10) + b % 10;
    if a / 10 == b / 10 {
      assert x[1..] == [Digit(a % 10)] && y[1..] == [Digit(b % 10)];
      assert x[1..][1..] == [] && y[1..][1..] == [];
      assert StrLt(x, y) == StrLt(x[1..], y[1..]);
      assert StrLt(x[1..], y[1..]) == (a % 10 < b % 10);
    } else {
      assert StrLt(x, y) == (a / 10 < b / 10);
    }
  }
}
