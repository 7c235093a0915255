/**
 The parts of Go's `strings` package used by the modelled code, over sequences of characters.
 */
module Text {

  datatype Option<+T> = None | Some(value: T)

  datatype Result<+T, +E> = Ok(value: T) | Err(error: E)

  /** The character `c` stands at positions `i` and `i + 1` of `s`. */
  predicate PairAt(s: string, c: char, i: int) {
    0 <= i && i + 1 < |s| && s[i] == c && s[i + 1] == c
  }

  /** `strings.Index` for a doubled character, searching from position `from`; -1 when there is none. */
  function FindPair(s: string, c: char, from: nat): (i: int)
    requires from <= |s|
    ensures i == -1 || (from <= i && PairAt(s, c, i))
    ensures forall j :: from <= j && (i == -1 || j < i) ==> !PairAt(s, c, j)
    decreases |s| - from
  {
    if from + 1 >= |s| then -1
    else if PairAt(s, c, from) then from
    else FindPair(s, c, from + 1)
  }

  /** `strings.Count` for a doubled character: non-overlapping occurrences at or after `from`. */
  function CountPairs(s: string, c: char, from: nat): nat
    requires from <= |s|
    decreases |s| - from
  {
    var i := FindPair(s, c, from);
    if i == -1 then 0 else 1 + CountPairs(s, c, i + 2)
  }

  /** The first position of `c` in `s`, or `|s|`. */
  function FindChar(s: string, c: char): (i: nat)
    ensures i <= |s|
    ensures i < |s| ==> s[i] == c
    ensures forall j :: 0 <= j < i ==> s[j] != c
  {
    if s == [] || s[0] == c then 0 else FindChar(s[1..], c) + 1
  }

  /** Unicode white space, as `unicode.IsSpace` decides it. */
  predicate IsSpace(c: char) {
    || '\U{9}' <= c <= '\U{D}' || c == ' ' || c == '\U{85}' || c == '\U{A0}' || c == '\U{1680}'
    || '\U{2000}' <= c <= '\U{200A}' || c == '\U{2028}' || c == '\U{2029}' || c == '\U{202F}'
    || c == '\U{205F}' || c == '\U{3000}'
  }

  function TrimLeft(s: string): (r: string)
    ensures r == [] || !IsSpace(r[0])
    ensures r == s || (s != [] && IsSpace(s[0]))
  {
    if s != [] && IsSpace(s[0]) then TrimLeft(s[1..]) else s
  }

  function TrimRight(s: string): (r: string)
    ensures r == [] || !IsSpace(r[|r| - 1])
    ensures r <= s
    ensures r == s || IsSpace(s[|s| - 1])
  {
    if s != [] && IsSpace(s[|s| - 1]) then TrimRight(s[..|s| - 1]) else s
  }

  /** A string that `strings.TrimSpace` leaves alone. */
  predicate Trimmed(s: string) {
    s == [] || (!IsSpace(s[0]) && !IsSpace(s[|s| - 1]))
  }

  function TrimSpace(s: string): (r: string)
    ensures Trimmed(r)
    ensures Trimmed(s) ==> r == s
  {
    TrimRight(TrimLeft(s))
  }

  /** `strings.Split(s, ".")`: the fields between the dots, always at least one. */
  function SplitDots(s: string): (r: seq<string>)
    ensures r != []
    decreases |s|
  {
    var i := FindChar(s, '.');
    if i == |s| then [s] else [s[..i]] + SplitDots(s[i + 1..])
  }

  predicate DotFree(names: seq<string>) {
    forall i :: 0 <= i < |names| ==> '.' !in names[i]
  }

  /** `strings.Join(names, ".")`. */
  function JoinDots(names: seq<string>): string
    requires names != []
  {
    if |names| == 1 then names[0] else names[0] + "." + JoinDots(names[1..])
  }

  lemma FirstDot(a: string, b: string)
    requires '.' !in a
    ensures FindChar(a, '.') == |a|
    ensures var s := a + "." + b; FindChar(s, '.') == |a| && s[..|a|] == a && s[|a| + 1..] == b
  {
    hide FindChar;
    var s := a + "." + b;
    assert forall j :: 0 <= j < |a| ==> s[j] == a[j];
    assert s[|a|] == '.';
  }

  /** Splitting gives back the names that were joined. */
  lemma {:induction false} SplitJoined(names: seq<string>)
    requires names != [] && DotFree(names)
    ensures SplitDots(JoinDots(names)) == names
  {
    hide FindChar;
    if |names| == 1 {
      FirstDot(names[0], "");
    } else {
      SplitJoined(names[1..]);
      FirstDot(names[0], JoinDots(names[1..]));
      assert names == [names[0]] + names[1..];
    }
  }

  /** Joining gives back the text that was split, into names without dots. */
  lemma {:induction false} JoinSplit(s: string)
    ensures DotFree(SplitDots(s)) && JoinDots(SplitDots(s)) == s
    decreases |s|
  {
    hide FindChar;
    var i := FindChar(s, '.');
    if i < |s| {
      JoinSplit(s[i + 1..]);
      assert s == s[..i] + "." + s[i + 1..];
      assert '.' !in s[..i];
      assert SplitDots(s)[1..] == SplitDots(s[i + 1..]);
    }
  }

  lemma {:induction false} LeftCut(s: string)
    ensures |TrimLeft(s)| <= |s| && TrimLeft(s) == s[|s| - |TrimLeft(s)|..]
    ensures forall i :: 0 <= i < |s| - |TrimLeft(s)| ==> IsSpace(s[i])
  {
    if s != [] && IsSpace(s[0]) {
      LeftCut(s[1..]);
      var cut := |s| - |TrimLeft(s)|;
      assert s[cut..] == s[1..][cut - 1..];
    }
  }

  lemma {:induction false} RightCut(s: string)
    ensures forall i :: |TrimRight(s)| <= i < |s| ==> IsSpace(s[i])
  {
    if s != [] && IsSpace(s[|s| - 1]) {
      RightCut(s[..|s| - 1]);
    }
  }

  predicate AllSpace(s: string) { forall i :: 0 <= i < |s| ==> IsSpace(s[i]) }

  /** Trimming cuts white space off both ends, and nothing else. */
  lemma TrimCutsSpace(s: string) returns (before: string, after: string)
    ensures s == before + TrimSpace(s) + after && AllSpace(before) && AllSpace(after)
  {
    hide IsSpace, TrimLeft, TrimRight;
    LeftCut(s);
    var t := TrimLeft(s);
    RightCut(t);
    before, after := s[..|s| - |t|], t[|TrimRight(t)|..];
    assert s == before + t && t == TrimRight(t) + after;
  }

  /** And gives back a trimmed text that has been padded with white space. */
  lemma {:induction false} TrimPadded(before: string, s: string, after: string)
    requires AllSpace(before) && AllSpace(after) && Trimmed(s) && s != ""
    ensures TrimSpace(before + s + after) == s
    decreases |before| + |after|
  {
    hide IsSpace;
    var all := before + s + after;
    if before != "" {
      assert all[1..] == before[1..] + s + after;
      TrimPadded(before[1..], s, after);
    } else {
      assert all == s + after && TrimLeft(all) == all;
      TrimRightPadded(s, after);
    }
  }

  lemma {:induction false} TrimRightPadded(s: string, after: string)
    requires AllSpace(after) && s != "" && !IsSpace(s[|s| - 1])
    ensures TrimRight(s + after) == s
  {
    hide IsSpace;
    if after == "" {
      assert s + after == s;
    } else {
      var n := |after| - 1;
      assert (s + after)[..|s| + n] == s + after[..n];
      TrimRightPadded(s, after[..n]);
    }
  }

  const DIGITS := "0123456789"

  /** fmt.Sprintf("%d", n). */
  function Decimal(n: nat): (r: string)
    ensures r != "" && forall i :: 0 <= i < |r| ==> r[i] in DIGITS
    ensures DecimalValue(r) == n
  {
    if n < 10 then [DIGITS[n]] else Decimal(n / 10) + [DIGITS[n % 10]]
  }

  function Digit(c: char): int {
    c as int - '0' as int
  }

  function DecimalValue(s: string): int {
    if s == "" then 0 else 10 * DecimalValue(s[..|s| - 1]) + Digit(s[|s| - 1])
  }
}
