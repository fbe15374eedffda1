/** The address a synchronous client takes: its id, a dot, and its thread id in hexadecimal. */
module Address {

  const PID_VALUES: nat := 0x1_0000_0000      // pid_t is a 32-bit int
  const SIZE_VALUES: nat := 0x1_0000_0000_0000_0000
  const SUFFIX_DIGITS: nat := 8               // sizeof(pid_t) * 2

  function Digit(d: nat): (c: char)
    requires d < 16
  {
    if d < 10 then '0' + d as char else 'a' + (d - 10) as char
  }

  function DigitValue(c: char): (d: nat)
    ensures d < 16
  {
    if '0' <= c <= '9' then (c - '0') as int
    else if 'a' <= c <= 'f' then (c - 'a') as int + 10
    else 0
  }

  predicate IsHex(s: string) {
    forall i :: 0 <= i < |s| ==> '0' <= s[i] <= '9' || 'a' <= s[i] <= 'f'
  }

  /** What `std::hex` prints: no sign, no leading zero. */
  function Hex(n: nat): (s: string)
    ensures |s| > 0
  {
    if n < 16 then [Digit(n)] else Hex(n / 16) + [Digit(n % 16)]
  }

  function Fill(n: nat): (s: string)
    ensures |s| == n && forall i :: 0 <= i < n ==> s[i] == '0'
  {
    seq(n, _ => '0')
  }

  /** `setfill('0') << setw(8) << hex`; a negative int prints as its unsigned representation. */
  function Suffix(pid: int): string {
    var h := Hex(pid % PID_VALUES);
    if |h| < SUFFIX_DIGITS then Fill(SUFFIX_DIGITS - |h|) + h else h
  }

  function UniqueId(clientId: string, pid: int): string {
    clientId + "." + Suffix(pid)
  }

  /** `substr(0, size - 8 - 1)` on an unsigned 64-bit size. */
  function Sender(uniqueSender: string): string
    requires |uniqueSender| < SIZE_VALUES
  {
    var n := (|uniqueSender| - SUFFIX_DIGITS - 1) % SIZE_VALUES;
    if n < |uniqueSender| then uniqueSender[..n] else uniqueSender
  }

  function Value(s: string): nat {
    if s == [] then 0 else 16 * Value(s[..|s| - 1]) + DigitValue(s[|s| - 1])
  }

  lemma DigitRoundTrip(d: nat)
    requires d < 16
    ensures DigitValue(Digit(d)) == d && IsHex([Digit(d)])
  {
  }

  /** The digits that the suffix is written with. */
  lemma DigitsAre(d: nat)
    requires d < 16
    ensures Digit(d) == "0123456789abcdef"[d]
  {
    assert '0' + 9 as char == '9' && 'a' + 5 as char == 'f';
  }

  lemma ValueAppend(s: string, c: char)
    ensures Value(s + [c]) == 16 * Value(s) + DigitValue(c)
  {
    assert (s + [c])[..|s|] == s;
  }

  lemma OneDigit(d: nat)
    requires d < 16
    ensures Value([Digit(d)]) == d && IsHex([Digit(d)])
  {
    DigitRoundTrip(d);
    ValueAppend([], Digit(d));
    assert [] + [Digit(d)] == [Digit(d)];
  }

  lemma AppendDigit(s: string, d: nat)
    requires IsHex(s) && d < 16
    ensures Value(s + [Digit(d)]) == 16 * Value(s) + d && IsHex(s + [Digit(d)])
  {
    DigitRoundTrip(d);
    ValueAppend(s, Digit(d));
    assert IsHex([Digit(d)]) && [Digit(d)][0] == Digit(d);
  }

  lemma Divided(n: nat)
    ensures 16 * (n / 16) + n % 16 == n
  {
  }

  lemma {:induction false} HexIsValue(n: nat)
    ensures Value(Hex(n)) == n && IsHex(Hex(n))
  {
    if n < 16 {
      OneDigit(n);
    } else {
      HexIsValue(n / 16);
      AppendDigit(Hex(n / 16), n % 16);
      Divided(n);
    }
  }

  function Pow16(k: nat): nat {
    if k == 0 then 1 else 16 * Pow16(k - 1)
  }

  lemma {:induction false} HexLength(n: nat, k: nat)
    requires k > 0 && n < Pow16(k)
    ensures |Hex(n)| <= k
  {
    if n >= 16 {
      assert Pow16(1) == 16;
      HexLength(n / 16, k - 1);
    }
  }

  lemma {:induction false} FillIsNothing(n: nat, s: string)
    ensures Value(Fill(n) + s) == Value(s)
    decreases n + |s|
  {
    var t := Fill(n) + s;
    if s != [] {
      FillIsNothing(n, s[..|s| - 1]);
      assert t[..|t| - 1] == Fill(n) + s[..|s| - 1];
    } else if n > 0 {
      FillIsNothing(n - 1, []);
      assert t[..n - 1] == Fill(n - 1) + [];
    }
  }

  lemma Padded(h: string)
    requires |h| <= SUFFIX_DIGITS && IsHex(h)
    ensures var s := if |h| < SUFFIX_DIGITS then Fill(SUFFIX_DIGITS - |h|) + h else h;
      |s| == SUFFIX_DIGITS && IsHex(s) && Value(s) == Value(h)
  {
    FillIsNothing(SUFFIX_DIGITS - |h|, h);
  }

  lemma Pow16Of8()
    ensures Pow16(8) == PID_VALUES
  {
    assert Pow16(4) == 0x1_0000;
  }

  /** The suffix is eight lower-case hexadecimal digits for every thread id, and tells it. */
  lemma SuffixIsFixedWidth(pid: int)
    ensures |Suffix(pid)| == SUFFIX_DIGITS && IsHex(Suffix(pid))
    ensures Value(Suffix(pid)) == pid % PID_VALUES
  {
    var n := pid % PID_VALUES;
    Pow16Of8();
    HexLength(n, 8);
    HexIsValue(n);
    Padded(Hex(n));
  }

  /** An address is the client id, a dot, and the thread in eight hexadecimal digits. */
  lemma AddressShape(clientId: string, pid: int)
    ensures var u, n := UniqueId(clientId, pid), |clientId|;
      && |u| == n + 9 && u[..n] == clientId && u[n] == '.'
      && IsHex(u[n + 1..]) && Value(u[n + 1..]) == pid % PID_VALUES
  {
    SuffixIsFixedWidth(pid);
    var u := UniqueId(clientId, pid);
    assert u[|clientId| + 1..] == Suffix(pid);
  }

  lemma SameDigit(c: char, d: char)
    requires IsHex([c]) && IsHex([d]) && DigitValue(c) == DigitValue(d)
    ensures c == d
  {
    assert [c][0] == c && [d][0] == d;
  }

  lemma SameParts(a: nat, x: nat, b: nat, y: nat)
    requires 16 * a + x == 16 * b + y && x < 16 && y < 16
    ensures a == b && x == y
  {
  }

  lemma SameEnds(s: string, r: string)
    requires s != [] && |s| == |r| && s[..|s| - 1] == r[..|s| - 1] && s[|s| - 1] == r[|s| - 1]
    ensures s == r
  {
    assert s == s[..|s| - 1] + [s[|s| - 1]] == r;
  }

  lemma LastDigit(s: string, r: string)
    requires s != [] && IsHex(s) && IsHex(r) && |s| == |r| && Value(s) == Value(r)
    ensures var n := |s| - 1;
      && Value(s[..n]) == Value(r[..n]) && s[n] == r[n] && IsHex(s[..n]) && IsHex(r[..n])
  {
    var n := |s| - 1;
    SameParts(Value(s[..n]), DigitValue(s[n]), Value(r[..n]), DigitValue(r[n]));
    SameDigit(s[n], r[n]);
  }

  /** No other digits of that number have the value. */
  lemma {:induction false} HexIsUnique(s: string, r: string)
    requires IsHex(s) && IsHex(r) && |s| == |r| && Value(s) == Value(r)
    ensures s == r
    decreases |s|
  {
    if s != [] {
      var n := |s| - 1;
      LastDigit(s, r);
      HexIsUnique(s[..n], r[..n]);
      SameEnds(s, r);
    }
  }

  /** The server recovers every client id, dots and hexadecimal digits in it or not. */
  lemma SenderOfUniqueId(clientId: string, pid: int)
    requires |UniqueId(clientId, pid)| < SIZE_VALUES
    ensures Sender(UniqueId(clientId, pid)) == clientId
  {
    SuffixIsFixedWidth(pid);
  }

  lemma Parts(c1: string, s1: string, c2: string, s2: string)
    requires c1 + "." + s1 == c2 + "." + s2 && |s1| == |s2|
    ensures c1 == c2 && s1 == s2
  {
    var u := c1 + "." + s1;
    assert u[..|c1|] == c1 && u[..|c2|] == c2;
    assert u[|c1| + 1..] == s1 && u[|c2| + 1..] == s2;
  }

  lemma PidIsItsRemainder(p1: int, p2: int)
    requires -0x8000_0000 <= p1 < 0x8000_0000 && -0x8000_0000 <= p2 < 0x8000_0000
    requires p1 % PID_VALUES == p2 % PID_VALUES
    ensures p1 == p2
  {
  }

  lemma SuffixIsInjective(p1: int, p2: int)
    requires -0x8000_0000 <= p1 < 0x8000_0000 && -0x8000_0000 <= p2 < 0x8000_0000
    requires Suffix(p1) == Suffix(p2)
    ensures p1 == p2
  {
    SuffixIsFixedWidth(p1);
    SuffixIsFixedWidth(p2);
    PidIsItsRemainder(p1, p2);
  }

  lemma SameAddress(c1: string, p1: int, c2: string, p2: int)
    requires UniqueId(c1, p1) == UniqueId(c2, p2)
    ensures c1 == c2 && Suffix(p1) == Suffix(p2)
  {
    SuffixIsFixedWidth(p1);
    SuffixIsFixedWidth(p2);
    Parts(c1, Suffix(p1), c2, Suffix(p2));
  }

  /** Two clients have the same address only if they have the same id and thread. */
  lemma UniqueIdIsInjective(c1: string, p1: int, c2: string, p2: int)
    requires -0x8000_0000 <= p1 < 0x8000_0000 && -0x8000_0000 <= p2 < 0x8000_0000
    ensures UniqueId(c1, p1) == UniqueId(c2, p2) <==> c1 == c2 && p1 == p2
  {
    if UniqueId(c1, p1) == UniqueId(c2, p2) {
      SameAddress(c1, p1, c2, p2);
      SuffixIsInjective(p1, p2);
    }
  }

  /** On a sender that no such client has: nine characters are cut whatever they are, and a name too
      short for that wraps the size around and comes back whole. */
  lemma SenderOfAnyString(s: string)
    requires |s| < SIZE_VALUES
    ensures |s| >= 9 ==> Sender(s) == s[..|s| - 9]
    ensures |s| < 9 <==> Sender(s) == s
  {
  }
}
