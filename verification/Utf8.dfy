/** UTF-8 validity of a byte string, by the grammar of section 4 of RFC 3629. */
module Utf8 {

  function B(c: char): int { c as int }

  predicate IsTail(c: char) { 0x80 <= B(c) <= 0xBF }

  /** utf8.RuneStart */
  predicate IsStart(c: char) { !IsTail(c) }

  predicate IsTwo(s: string) {
    |s| >= 2 && 0xC2 <= B(s[0]) <= 0xDF && IsTail(s[1])
  }

  predicate IsThree(s: string) {
    && |s| >= 3
    && ((B(s[0]) == 0xE0 && 0xA0 <= B(s[1]) <= 0xBF)
        || (0xE1 <= B(s[0]) <= 0xEC && IsTail(s[1]))
        || (B(s[0]) == 0xED && 0x80 <= B(s[1]) <= 0x9F)
        || (0xEE <= B(s[0]) <= 0xEF && IsTail(s[1])))
    && IsTail(s[2])
  }

  predicate IsFour(s: string) {
    && |s| >= 4
    && ((B(s[0]) == 0xF0 && 0x90 <= B(s[1]) <= 0xBF)
        || (0xF1 <= B(s[0]) <= 0xF3 && IsTail(s[1]))
        || (B(s[0]) == 0xF4 && 0x80 <= B(s[1]) <= 0x8F))
    && IsTail(s[2])
    && IsTail(s[3])
  }

  /** The length of the well-formed sequence at the front of s, or 0 when there is none. */
  function RuneLen(s: string): (n: nat)
    ensures n <= |s| && n <= 4
    ensures n > 0 ==> IsStart(s[0]) && (forall k :: 1 <= k < n ==> IsTail(s[k]))
  {
    if s == "" then 0
    else if B(s[0]) <= 0x7F then 1
    else if IsTwo(s) then 2
    else if IsThree(s) then 3
    else if IsFour(s) then 4
    else 0
  }

  /** The code point a well-formed sequence encodes. */
  function Rune(s: string): int
    requires RuneLen(s) > 0
  {
    match RuneLen(s)
    case 1 => B(s[0])
    case 2 => (B(s[0]) - 0xC0) * 64 + (B(s[1]) - 0x80)
    case 3 => (B(s[0]) - 0xE0) * 4096 + (B(s[1]) - 0x80) * 64 + (B(s[2]) - 0x80)
    case _ => (B(s[0]) - 0xF0) * 262144 + (B(s[1]) - 0x80) * 4096 + (B(s[2]) - 0x80) * 64 + (B(s[3]) - 0x80)
  }

  /** utf8.ValidString */
  predicate Valid(s: string)
    decreases |s|
  {
    s == "" || (RuneLen(s) > 0 && Valid(s[RuneLen(s)..]))
  }

  /** A printable string has no rune that isPrint rejects. */
  predicate AllRunes(isPrint: int -> bool, s: string)
    requires Valid(s)
    decreases |s|
  {
    s == "" || (isPrint(Rune(s)) && AllRunes(isPrint, s[RuneLen(s)..]))
  }

  lemma FrontRune(a: string, b: string)
    requires RuneLen(a) > 0
    ensures RuneLen(a + b) == RuneLen(a) && Rune(a + b) == Rune(a)
  {
    assert forall k :: 0 <= k < |a| ==> (a + b)[k] == a[k];
  }

  lemma {:induction false} ConcatIsValid(a: string, b: string)
    requires Valid(a) && Valid(b)
    ensures Valid(a + b)
    decreases |a|
  {
    if a == "" {
      assert a + b == b;
    } else {
      var n := RuneLen(a);
      FrontRune(a, b);
      assert (a + b)[n..] == a[n..] + b;
      ConcatIsValid(a[n..], b);
    }
  }

  /** In a valid string, a byte that can start a rune does start one, so the text
      before it is valid on its own; and at most three bytes separate it from the
      next start. */
  lemma {:induction false} CutAtStart(s: string, cut: nat)
    requires Valid(s) && cut < |s| && IsStart(s[cut])
    ensures Valid(s[..cut])
    decreases |s|
  {
    if cut > 0 {
      var n := RuneLen(s);
      assert n <= cut;
      var rest := s[n..];
      CutAtStart(rest, cut - n);
      assert s[..cut] == s[..n] + rest[..cut - n];
      assert RuneLen(s[..n]) == n;
      assert s[..n][n..] == "";
      ConcatIsValid(s[..n], rest[..cut - n]);
    }
  }

  lemma {:induction false} StartIsNear(s: string, k: nat) returns (start: nat)
    requires Valid(s) && k < |s|
    ensures start <= k <= start + 3 && IsStart(s[start])
    decreases |s|
  {
    var n := RuneLen(s);
    if k < n {
      start := 0;
    } else {
      start := StartIsNear(s[n..], k - n);
      start := start + n;
    }
  }

  /** A string of printable runes holds no byte below the space: such a byte is a
      rune of its own, and a control character. */
  lemma {:induction false} NoControlBytes(isPrint: int -> bool, s: string)
    requires Valid(s) && AllRunes(isPrint, s)
    requires forall r :: 0 <= r < 0x20 ==> !isPrint(r)
    ensures forall k :: 0 <= k < |s| ==> B(s[k]) >= 0x20
    decreases |s|
  {
    if s != "" {
      var n := RuneLen(s);
      NoControlBytes(isPrint, s[n..]);
      forall k | 0 <= k < |s| ensures B(s[k]) >= 0x20 {
        if k >= n {
          assert s[k] == s[n..][k - n];
        } else if k == 0 && n == 1 {
          assert isPrint(B(s[0]));
        }
      }
    }
  }
}
