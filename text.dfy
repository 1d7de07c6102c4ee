/**
 * The string operations the tools rely on, with Python's semantics:
 * `str.split`, `str.join`, `str(int)`, `int(str)` and the `in` substring test.
 */
module Text {
  import opened Wrappers

  /** `s.split(d)`: the pieces between the occurrences of `d`; there is always one more piece than occurrences. */
  function Split(s: string, d: char): (parts: seq<string>)
    ensures |parts| == multiset(s)[d] + 1
    ensures forall i :: 0 <= i < |parts| ==> d !in parts[i]
    decreases |s|
  {
    if s == [] then [[]]
    else
      assert s == [s[0]] + s[1..];
      var rest := Split(s[1..], d);
      if s[0] == d then [[]] + rest
      else [[s[0]] + rest[0]] + rest[1..]
  }

  /** `d.join(parts)`: the pieces with one `d` between neighbours; the empty list joins to "". */
  function Join(parts: seq<string>, d: char): (r: string)
    ensures |parts| == 1 ==> r == parts[0]
    ensures |r| >= |parts| - 1
    decreases |parts|
  {
    if |parts| == 0 then []
    else if |parts| == 1 then parts[0]
    else parts[0] + [d] + Join(parts[1..], d)
  }

  /** Splitting a text that starts with a delimiter-free piece puts that piece in front of the first split piece. */
  lemma {:induction false} SplitAfterPiece(p: string, tail: string, d: char)
    requires d !in p
    ensures Split(p + tail, d) == [p + Split(tail, d)[0]] + Split(tail, d)[1..]
    decreases |p|
  {
    if p == [] {
      assert p + tail == tail;
      var rest := Split(tail, d);
      assert [] + rest[0] == rest[0];
      assert rest == [rest[0]] + rest[1..];
    } else {
      assert (p + tail)[0] == p[0];
      assert (p + tail)[1..] == p[1..] + tail;
      SplitAfterPiece(p[1..], tail, d);
      assert [p[0]] + (p[1..] + Split(tail, d)[0]) == p + Split(tail, d)[0];
    }
  }

  /** Joining delimiter-free pieces and splitting again gives the pieces back. */
  lemma {:induction false} SplitJoin(parts: seq<string>, d: char)
    requires |parts| >= 1
    requires forall i :: 0 <= i < |parts| ==> d !in parts[i]
    ensures Split(Join(parts, d), d) == parts
    decreases |parts|
  {
    var first := parts[0];
    if |parts| == 1 {
      SplitAfterPiece(first, [], d);
      assert first + [] == first;
      assert Split([], d) == [[]];
    } else {
      var others := parts[1..];
      forall i | 0 <= i < |others| ensures d !in others[i] {
        assert others[i] == parts[i + 1];
      }
      var rest := Join(others, d);
      var tail := [d] + rest;
      assert Join(parts, d) == first + tail;
      SplitAfterPiece(first, tail, d);
      SplitGap(rest, d);
      SplitJoin(others, d);
      var pieces := Split(tail, d);
      assert pieces == [[]] + others;
      assert pieces[0] == [] && pieces[1..] == others;
      assert first + pieces[0] == first;
      assert parts == [first] + others;
    }
  }

  /** A text that starts with the delimiter splits into an empty piece and the split of the rest. */
  lemma SplitGap(rest: string, d: char)
    ensures Split([d] + rest, d) == [[]] + Split(rest, d)
  {
    assert ([d] + rest)[1..] == rest;
  }

  /** The number of occurrences of `d` inside the pieces themselves. */
  ghost function Occurrences(parts: seq<string>, d: char): nat
    decreases |parts|
  {
    if parts == [] then 0 else multiset(parts[0])[d] + Occurrences(parts[1..], d)
  }

  /** A join holds one delimiter per gap plus those inside the pieces. */
  lemma {:induction false} JoinCount(parts: seq<string>, d: char)
    requires |parts| >= 1
    ensures multiset(Join(parts, d))[d] == |parts| - 1 + Occurrences(parts, d)
    decreases |parts|
  {
    if |parts| == 1 {
      assert parts[1..] == [];
    } else {
      JoinCount(parts[1..], d);
    }
  }

  /** A piece that contains the delimiter contributes to `Occurrences`. */
  lemma {:induction false} OccurrencesPositive(parts: seq<string>, d: char, k: nat)
    requires k < |parts| && d in parts[k]
    ensures Occurrences(parts, d) >= 1
    decreases |parts|
  {
    if k > 0 {
      OccurrencesPositive(parts[1..], d, k - 1);
    }
  }

  /**
   * The delimiter-collision failure: once some piece contains the delimiter,
   * splitting the join yields more pieces than were joined.
   */
  lemma SplitJoinCollision(parts: seq<string>, d: char, k: nat)
    requires k < |parts| && d in parts[k]
    ensures |Split(Join(parts, d), d)| > |parts|
  {
    JoinCount(parts, d);
    OccurrencesPositive(parts, d, k);
  }

  /**
   * A character occurs in a join iff it occurs in some piece, or it is the
   * separator and there are at least two pieces, so that there is a gap.
   */
  lemma {:induction false} JoinContains(parts: seq<string>, d: char, c: char)
    ensures c in Join(parts, d) <==> (c == d && |parts| >= 2) || exists i :: 0 <= i < |parts| && c in parts[i]
    decreases |parts|
  {
    if |parts| > 1 {
      JoinContains(parts[1..], d, c);
      assert forall i :: 1 <= i < |parts| ==> parts[i] == parts[1..][i - 1];
      assert Join(parts, d) == parts[0] + [d] + Join(parts[1..], d);
      assert d in Join(parts, d);
    }
  }

  /** The characters `0` to `9`. */
  predicate IsDigit(c: char) {
    '0' <= c <= '9'
  }

  function DigitChar(n: int): (c: char)
    requires 0 <= n < 10
    ensures IsDigit(c)
  {
    ('0' as int + n) as char
  }

  /** Decimal spelling of a natural number, without leading zeros. */
  function NatToString(n: nat): (s: string)
    ensures |s| >= 1
    ensures forall i :: 0 <= i < |s| ==> IsDigit(s[i])
    decreases n
  {
    if n < 10 then [DigitChar(n)] else NatToString(n / 10) + [DigitChar(n % 10)]
  }

  /** `str(n)` for an integer: a minus sign for negative numbers, then the digits. */
  function IntToString(n: int): (s: string)
    ensures |s| >= 1
    ensures forall i :: 0 <= i < |s| ==> s[i] == '-' || IsDigit(s[i])
  {
    if n < 0 then "-" + NatToString(-n) else NatToString(n)
  }

  predicate AllDigits(s: string) {
    forall i :: 0 <= i < |s| ==> IsDigit(s[i])
  }

  /** The value of a string of decimal digits; leading zeros are allowed. */
  function DigitsValue(s: string): nat
    requires AllDigits(s)
    decreases |s|
  {
    if s == [] then 0 else DigitsValue(s[..|s| - 1]) * 10 + (s[|s| - 1] as int - '0' as int)
  }

  /** `int(s)` for an optional sign followed by at least one ASCII digit; anything else is no number. */
  function ParseInt(s: string): (r: Option<int>)
    ensures r.Some? ==> s != [] && (s[0] == '-' || s[0] == '+' || IsDigit(s[0])) && AllDigits(s[1..])
    ensures s != [] && AllDigits(s) ==> r == Some(DigitsValue(s))
    ensures s != [] && s[0] == '-' && s[1..] != [] && AllDigits(s[1..]) ==> r == Some(-(DigitsValue(s[1..]) as int))
  {
    if s != [] && (s[0] == '-' || s[0] == '+') then
      var digits := s[1..];
      if digits != [] && AllDigits(digits) then
        var magnitude: int := DigitsValue(digits);
        Some(if s[0] == '-' then -magnitude else magnitude)
      else None
    else if s != [] && AllDigits(s) then Some(DigitsValue(s))
    else None
  }

  lemma {:induction false} DigitsValueNatToString(n: nat)
    ensures DigitsValue(NatToString(n)) == n
    decreases n
  {
    if n >= 10 {
      var s := NatToString(n);
      assert s[..|s| - 1] == NatToString(n / 10);
      DigitsValueNatToString(n / 10);
    }
  }

  /** `int(str(n)) == n`. */
  lemma ParseIntToString(n: int)
    ensures ParseInt(IntToString(n)) == Some(n)
  {
    if n < 0 {
      ParseNegated(-n);
    } else {
      DigitsValueNatToString(n);
      assert AllDigits(NatToString(n));
    }
  }

  /** A minus sign before the digits of a positive number reads as its negation. */
  lemma ParseNegated(m: nat)
    ensures ParseInt("-" + NatToString(m)) == Some(-(m as int))
  {
    var digits := NatToString(m);
    var s := "-" + digits;
    DigitsValueNatToString(m);
    assert s[0] == '-' && s[1..] == digits;
    assert AllDigits(digits);
  }

  /** Python's `sub in s`: some window of `s` equals `sub`. */
  function Contains(s: string, sub: string): (r: bool)
    ensures r ==> |sub| <= |s|
    ensures sub <= s ==> r
    decreases |s|
  {
    sub <= s || (s != [] && Contains(s[1..], sub))
  }

  /** Whatever surrounds it, a text contains itself. */
  lemma {:induction false} ContainsInfix(a: string, sub: string, b: string)
    ensures Contains(a + sub + b, sub)
    decreases |a|
  {
    if a == [] {
      assert a + sub + b == sub + b;
    } else {
      ContainsInfix(a[1..], sub, b);
      assert (a + sub + b)[1..] == a[1..] + sub + b;
    }
  }

  /** `sub` sits in `s` at index `i`. */
  ghost predicate OccursAt(s: string, sub: string, i: int) {
    0 <= i && i + |sub| <= |s| && s[i..i + |sub|] == sub
  }

  /** `Contains` agrees with the index-based reading of a substring. */
  lemma {:induction false} ContainsWindow(s: string, sub: string)
    ensures Contains(s, sub) <==> exists i :: OccursAt(s, sub, i)
    decreases |s|
  {
    if sub <= s {
      assert OccursAt(s, sub, 0);
    } else if s != [] {
      ContainsWindow(s[1..], sub);
      forall i | OccursAt(s[1..], sub, i) ensures OccursAt(s, sub, i + 1) {
        assert s[i + 1..i + 1 + |sub|] == s[1..][i..i + |sub|];
      }
      forall i | OccursAt(s, sub, i) ensures OccursAt(s[1..], sub, i - 1) {
        assert i != 0;
        assert s[1..][i - 1..i - 1 + |sub|] == s[i..i + |sub|];
      }
    }
  }
}
