/** Text helpers shared by the model: the few Kotlin `String` operations the
    core relies on (`startsWith`, `indexOf`, `substringAfter`,
    `substringBeforeLast`, `split`, `joinToString`, `toString` on numbers),
    written over `seq<char>`. */
module Text {

  datatype Option<+T> = None | Some(value: T)

  datatype Result<+T> = Ok(value: T) | Err(message: string)

  predicate StartsWith(s: string, prefix: string)
  {
    |prefix| <= |s| && s[..|prefix|] == prefix
  }

  /** `d` occurs in `s` at position `j`. */
  predicate OccursAt(s: string, d: string, j: nat)
  {
    j + |d| <= |s| && s[j..j + |d|] == d
  }

  predicate Contains(s: string, d: string)
  {
    exists j: nat | j <= |s| :: OccursAt(s, d, j)
  }

  lemma OccursShift(s: string, d: string, j: nat)
    requires |s| > 0
    ensures OccursAt(s, d, j + 1) <==> OccursAt(s[1..], d, j)
  {
    if j + 1 + |d| <= |s| {
      assert s[1..][j..j + |d|] == s[j + 1..j + 1 + |d|];
    }
  }

  /** Kotlin `indexOf(d)`: the first position at which `d` occurs. */
  function IndexOf(s: string, d: string): (r: Option<nat>)
    ensures r.Some? ==> OccursAt(s, d, r.value)
    ensures r.Some? ==> forall j: nat :: j < r.value ==> !OccursAt(s, d, j)
    ensures r.None? <==> !Contains(s, d)
    decreases |s|
  {
    if |s| < |d| then
      assert forall j: nat :: !OccursAt(s, d, j);
      None
    else if s[..|d|] == d then
      assert OccursAt(s, d, 0);
      Some(0)
    else
      var rest := IndexOf(s[1..], d);
      forall j: nat ensures OccursAt(s, d, j + 1) <==> OccursAt(s[1..], d, j) {
        OccursShift(s, d, j);
      }
      assert !OccursAt(s, d, 0);
      match rest
      case None =>
        assert forall j: nat :: !OccursAt(s, d, j) by {
          forall j: nat ensures !OccursAt(s, d, j) {
            if j > 0 { assert !OccursAt(s[1..], d, j - 1); }
          }
        }
        None
      case Some(i) =>
        assert forall j: nat :: j < i + 1 ==> !OccursAt(s, d, j) by {
          forall j: nat | j < i + 1 ensures !OccursAt(s, d, j) {
            if j > 0 { assert !OccursAt(s[1..], d, j - 1); }
          }
        }
        Some(i + 1)
  }

  /** Kotlin `substringAfter(d)`: the text after the first occurrence of
      `d`, or the whole string when `d` does not occur. */
  function SubstringAfter(s: string, d: string): (r: string)
    ensures !Contains(s, d) ==> r == s
    ensures Contains(s, d) ==> s == s[..IndexOf(s, d).value] + d + r
  {
    match IndexOf(s, d)
    case None => s
    case Some(i) =>
      assert s == s[..i] + s[i..i + |d|] + s[i + |d|..];
      s[i + |d|..]
  }

  /** The first occurrence of `d` is the one `IndexOf` finds. */
  lemma IndexOfFirst(s: string, d: string, i: nat)
    requires OccursAt(s, d, i) && forall j: nat :: j < i ==> !OccursAt(s, d, j)
    ensures IndexOf(s, d) == Some(i)
  {
    assert Contains(s, d);
  }

  /** When `s` starts with `d`, `substringAfter(d)` drops exactly that prefix. */
  lemma SubstringAfterPrefix(s: string, d: string)
    requires StartsWith(s, d)
    ensures SubstringAfter(s, d) == s[|d|..]
  {
    assert OccursAt(s, d, 0);
    assert IndexOf(s, d) == Some(0);
  }

  /** Kotlin `lastIndexOf(c)`. */
  function LastIndexOf(s: string, c: char): (r: Option<nat>)
    ensures r.Some? ==> r.value < |s| && s[r.value] == c && c !in s[r.value + 1..]
    ensures r.None? <==> c !in s
  {
    if |s| == 0 then None
    else if s[|s| - 1] == c then Some(|s| - 1)
    else
      assert s == s[..|s| - 1] + [s[|s| - 1]];
      LastIndexOf(s[..|s| - 1], c)
  }

  /** Kotlin `substringBeforeLast(c)`: the text before the last `c`, or the
      whole string when `c` does not occur. */
  function SubstringBeforeLast(s: string, c: char): (r: string)
    ensures c !in s ==> r == s
    ensures c in s ==> |r| < |s| && s[..|r|] == r && s[|r|] == c && c !in s[|r| + 1..]
  {
    match LastIndexOf(s, c)
    case None => s
    case Some(i) => s[..i]
  }

  /** Kotlin `split(sep)` with one non-empty delimiter: the pieces between
      successive non-overlapping occurrences, scanning left to right; empty
      pieces are kept, so the result is never empty. */
  function Split(s: string, sep: string): (parts: seq<string>)
    requires |sep| > 0
    ensures |parts| >= 1
    decreases |s|
  {
    match IndexOf(s, sep)
    case None => [s]
    case Some(i) => [s[..i]] + Split(s[i + |sep|..], sep)
  }

  /** Kotlin `joinToString(sep)`. */
  function Join(parts: seq<string>, sep: string): string
  {
    if |parts| == 0 then ""
    else if |parts| == 1 then parts[0]
    else parts[0] + sep + Join(parts[1..], sep)
  }

  lemma JoinCons(head: string, tail: seq<string>, sep: string)
    requires |tail| >= 1
    ensures Join([head] + tail, sep) == head + sep + Join(tail, sep)
  {
    assert ([head] + tail)[1..] == tail;
  }

  /** Splitting and joining again with the same delimiter gives the text back. */
  lemma {:induction false} JoinSplit(s: string, sep: string)
    requires |sep| > 0
    ensures Join(Split(s, sep), sep) == s
    decreases |s|
  {
    var found := IndexOf(s, sep);
    if found.Some? {
      var i := found.value;
      assert OccursAt(s, sep, i);
      var rest := s[i + |sep|..];
      var tail := Split(rest, sep);
      assert Split(s, sep) == [s[..i]] + tail;
      JoinSplit(rest, sep);
      JoinCons(s[..i], tail, sep);
      calc {
        Join(Split(s, sep), sep);
        s[..i] + sep + Join(tail, sep);
        s[..i] + s[i..i + |sep|] + rest;
        s;
      }
    }
  }

  /** The text before the first occurrence of `d` does not contain `d`. */
  lemma HeadFree(s: string, d: string, i: nat)
    requires |d| > 0 && IndexOf(s, d) == Some(i)
    ensures !Contains(s[..i], d)
  {
    assert OccursAt(s, d, i);
    var head := s[..i];
    // An occurrence inside the head would be an earlier one in `s`.
    forall j: nat | j <= |head|
      ensures !OccursAt(head, d, j)
    {
      if j + |d| <= |head| {
        assert head[j..j + |d|] == s[j..j + |d|];
        assert !OccursAt(s, d, j);
      }
    }
  }

  /** No piece of a split holds the delimiter: each piece ends at the first
      occurrence left in the text, or is the text after the last one. */
  lemma {:induction false} SplitPiecesFree(s: string, sep: string)
    requires |sep| > 0
    ensures forall k :: 0 <= k < |Split(s, sep)| ==> !Contains(Split(s, sep)[k], sep)
    decreases |s|
  {
    var found := IndexOf(s, sep);
    if found.Some? {
      var i := found.value;
      assert OccursAt(s, sep, i);
      var rest := s[i + |sep|..];
      assert Split(s, sep) == [s[..i]] + Split(rest, sep);
      SplitPiecesFree(rest, sep);
      HeadFree(s, sep, i);
    }
  }

  predicate IsDigit(c: char)
  {
    '0' <= c <= '9'
  }

  predicate AllDigits(s: string)
  {
    forall i :: 0 <= i < |s| ==> IsDigit(s[i])
  }

  function DigitChar(d: nat): (c: char)
    requires d < 10
    ensures IsDigit(c) && (c as int) - ('0' as int) == d
  {
    ('0' as int + d) as char
  }

  /** Kotlin `toString()` of a non-negative integer: its decimal digits. */
  function NatToString(n: nat): (s: string)
    ensures 1 <= |s| && AllDigits(s)
    ensures s[0] == '0' ==> n == 0
  {
    if n < 10 then [DigitChar(n)] else NatToString(n / 10) + [DigitChar(n % 10)]
  }

  /** Kotlin `toString()` of an `Int`/`Long`: a minus sign before the digits
      of a negative value. */
  function IntToString(i: int): (s: string)
    ensures 1 <= |s|
    ensures i < 0 <==> s[0] == '-'
    ensures forall k :: 0 < k < |s| ==> IsDigit(s[k])
  {
    if i < 0 then "-" + NatToString(-i) else NatToString(i)
  }

  /** The value of a string of decimal digits. */
  function DigitsValue(s: string): nat
    requires AllDigits(s)
  {
    if |s| == 0 then 0
    else DigitsValue(s[..|s| - 1]) * 10 + ((s[|s| - 1] as int) - ('0' as int))
  }

  /** Reading the digits of a number gives the number back. */
  lemma {:induction false} DigitsValueOfNatToString(n: nat)
    ensures DigitsValue(NatToString(n)) == n
  {
    if n >= 10 {
      DigitsValueOfNatToString(n / 10);
      var s := NatToString(n);
      assert s[..|s| - 1] == NatToString(n / 10);
    }
  }

  /** Kotlin `replace(d, t)`: every occurrence of `d`, scanning left to right
      without overlap, replaced by `t`. */
  function ReplaceAll(s: string, d: string, t: string): string
    requires |d| > 0
    decreases |s|
  {
    match IndexOf(s, d)
    case None => s
    case Some(i) => s[..i] + t + ReplaceAll(s[i + |d|..], d, t)
  }

  /** A string that nowhere holds the second character of `d` holds no
      occurrence of `d`, so replacing leaves it as it is. */
  lemma ReplaceAllAbsent(s: string, d: string, t: string)
    requires |d| >= 2
    requires forall k :: 0 <= k < |s| ==> s[k] != d[1]
    ensures ReplaceAll(s, d, t) == s
  {
    forall j: nat | j <= |s| ensures !OccursAt(s, d, j) {
      if j + |d| <= |s| {
        assert s[j..j + |d|][1] == s[j + 1] != d[1];
      }
    }
  }
}
