/**
 * Base64 in the standard alphabet with `=` padding (RFC 4648, section 4), as
 * `base64.b64encode` writes it and as `base64.b64decode` reads a well-formed token.
 */
module Base64 {
  import opened Wrappers

  /** The character for a six-bit value: `A`-`Z`, `a`-`z`, `0`-`9`, `+`, `/`. */
  function Symbol(v: int): (c: char)
    requires 0 <= v < 64
    ensures c != '='
  {
    if v < 26 then ('A' as int + v) as char
    else if v < 52 then ('a' as int + (v - 26)) as char
    else if v < 62 then ('0' as int + (v - 52)) as char
    else if v == 62 then '+'
    else '/'
  }

  /** The six-bit value of an alphabet character; `=` and every other character have none. */
  function SymbolValue(c: char): (r: Option<int>)
    ensures r.Some? ==> 0 <= r.value < 64 && Symbol(r.value) == c
  {
    if 'A' <= c <= 'Z' then Some(c as int - 'A' as int)
    else if 'a' <= c <= 'z' then Some(c as int - 'a' as int + 26)
    else if '0' <= c <= '9' then Some(c as int - '0' as int + 52)
    else if c == '+' then Some(62)
    else if c == '/' then Some(63)
    else None
  }

  lemma SymbolValueOfSymbol(v: int)
    requires 0 <= v < 64
    ensures SymbolValue(Symbol(v)) == Some(v)
  {
  }

  /** Three octets as four symbols. */
  function EncodeGroup(b0: byte, b1: byte, b2: byte): string {
    [Symbol(b0 / 4), Symbol(b0 % 4 * 16 + b1 / 16), Symbol(b1 % 16 * 4 + b2 / 64), Symbol(b2 % 64)]
  }

  /** One trailing octet: two symbols and `==`. */
  function EncodeOne(b0: byte): string {
    [Symbol(b0 / 4), Symbol(b0 % 4 * 16), '=', '=']
  }

  /** Two trailing octets: three symbols and `=`. */
  function EncodePair(b0: byte, b1: byte): string {
    [Symbol(b0 / 4), Symbol(b0 % 4 * 16 + b1 / 16), Symbol(b1 % 16 * 4), '=']
  }

  /** The encoding: full groups of three octets, then one or two trailing octets padded with `=`. */
  function Encode(b: seq<byte>): (s: string)
    ensures |s| % 4 == 0
    ensures |s| == 0 <==> |b| == 0
    decreases |b|
  {
    if |b| == 0 then []
    else if |b| == 1 then EncodeOne(b[0])
    else if |b| == 2 then EncodePair(b[0], b[1])
    else EncodeGroup(b[0], b[1], b[2]) + Encode(b[3..])
  }

  /** Four symbols without padding as three octets. */
  function DecodeGroup(s: string): Option<seq<byte>>
    requires |s| == 4
  {
    match (SymbolValue(s[0]), SymbolValue(s[1]), SymbolValue(s[2]), SymbolValue(s[3]))
    case (Some(v0), Some(v1), Some(v2), Some(v3)) =>
      Some([v0 * 4 + v1 / 16, v1 % 16 * 16 + v2 / 4, v2 % 4 * 64 + v3])
    case _ => None
  }

  /** The last four symbols, which may end in `==` (one octet) or `=` (two octets). */
  function DecodeLastGroup(s: string): Option<seq<byte>>
    requires |s| == 4
  {
    if s[2] == '=' && s[3] == '=' then
      match (SymbolValue(s[0]), SymbolValue(s[1]))
      case (Some(v0), Some(v1)) => Some([v0 * 4 + v1 / 16])
      case _ => None
    else if s[3] == '=' then
      match (SymbolValue(s[0]), SymbolValue(s[1]), SymbolValue(s[2]))
      case (Some(v0), Some(v1), Some(v2)) => Some([v0 * 4 + v1 / 16, v1 % 16 * 16 + v2 / 4])
      case _ => None
    else DecodeGroup(s)
  }

  function DecodeGroups(s: string): (r: Option<seq<byte>>)
    requires |s| % 4 == 0
    decreases |s|
  {
    if |s| == 0 then Some([])
    else if |s| == 4 then DecodeLastGroup(s)
    else
      match (DecodeGroup(s[..4]), DecodeGroups(s[4..]))
      case (Some(first), Some(rest)) => Some(first + rest)
      case _ => None
  }

  /** The decoding of a token; a length that is not a multiple of four is incorrect padding. */
  function Decode(s: string): (r: Option<seq<byte>>)
    ensures |s| % 4 != 0 ==> r.None?
    ensures s == [] ==> r == Some([])
  {
    if |s| % 4 != 0 then None else DecodeGroups(s)
  }

  /**
   * Leftover bits of the last group are not checked: `QR==` differs from the
   * canonical `QQ==` only in bits that no octet uses, and decodes to the same `A`.
   */
  lemma LeftoverBitsIgnored()
    ensures Decode("QR==") == Decode("QQ==") == Some([65])
  {
    assert SymbolValue('Q') == Some(16) && SymbolValue('R') == Some(17);
    assert DecodeLastGroup("QR==") == Some([65]);
  }

  /** The six-bit pieces of three octets put back together. */
  lemma TripleArithmetic(x: byte, y: byte, z: byte)
    ensures x / 4 * 4 + (x % 4 * 16 + y / 16) / 16 == x
    ensures (x % 4 * 16 + y / 16) % 16 * 16 + (y % 16 * 4 + z / 64) / 4 == y
    ensures (y % 16 * 4 + z / 64) % 4 * 64 + z % 64 == z
  {
    var hi, top := y / 16, z / 64;
    assert 0 <= hi < 16 && 0 <= top < 4;
    assert (x % 4 * 16 + hi) / 16 == x % 4 && (x % 4 * 16 + hi) % 16 == hi;
    assert (y % 16 * 4 + top) / 4 == y % 16 && (y % 16 * 4 + top) % 4 == top;
  }

  lemma DecodeEncodeGroup(b0: byte, b1: byte, b2: byte)
    ensures DecodeGroup(EncodeGroup(b0, b1, b2)) == Some([b0, b1, b2])
  {
    var v0, v1, v2, v3 := b0 / 4, b0 % 4 * 16 + b1 / 16, b1 % 16 * 4 + b2 / 64, b2 % 64;
    SymbolValueOfSymbol(v0);
    SymbolValueOfSymbol(v1);
    SymbolValueOfSymbol(v2);
    SymbolValueOfSymbol(v3);
    var s := EncodeGroup(b0, b1, b2);
    assert s == [Symbol(v0), Symbol(v1), Symbol(v2), Symbol(v3)];
    assert DecodeGroup(s) == Some([v0 * 4 + v1 / 16, v1 % 16 * 16 + v2 / 4, v2 % 4 * 64 + v3]);
    TripleArithmetic(b0, b1, b2);
  }

  lemma DecodeEncodeOne(b: seq<byte>)
    requires |b| == 1
    ensures Decode(Encode(b)) == Some(b)
  {
    var v1 := b[0] % 4 * 16;
    SymbolValueOfSymbol(b[0] / 4);
    SymbolValueOfSymbol(v1);
    var s := [Symbol(b[0] / 4), Symbol(v1), '=', '='];
    assert Encode(b) == EncodeOne(b[0]) == s;
    assert Decode(s) == DecodeLastGroup(s);
    assert v1 / 16 == b[0] % 4;
    assert b == [b[0]];
  }

  /** The six-bit pieces of two octets put back together. */
  lemma PairArithmetic(x: byte, y: byte)
    ensures x / 4 * 4 + (x % 4 * 16 + y / 16) / 16 == x
    ensures (x % 4 * 16 + y / 16) % 16 * 16 + y % 16 * 4 / 4 == y
  {
    var hi := y / 16;
    assert 0 <= hi < 16;
    assert (x % 4 * 16 + hi) / 16 == x % 4;
    assert (x % 4 * 16 + hi) % 16 == hi;
  }

  /** A last group with one `=` decodes its three symbols' values into two octets. */
  lemma DecodeLastPair(c0: char, c1: char, c2: char, v0: int, v1: int, v2: int)
    requires SymbolValue(c0) == Some(v0) && SymbolValue(c1) == Some(v1) && SymbolValue(c2) == Some(v2)
    ensures DecodeLastGroup([c0, c1, c2, '=']) == Some([v0 * 4 + v1 / 16, v1 % 16 * 16 + v2 / 4])
  {
    var s := [c0, c1, c2, '='];
    assert s[0] == c0 && s[1] == c1 && s[2] == c2 && s[3] == '=';
  }

  lemma DecodeEncodeTwo(b: seq<byte>)
    requires |b| == 2
    ensures Decode(Encode(b)) == Some(b)
  {
    var x, y := b[0], b[1];
    var v0, v1, v2 := x / 4, x % 4 * 16 + y / 16, y % 16 * 4;
    SymbolValueOfSymbol(v0);
    SymbolValueOfSymbol(v1);
    SymbolValueOfSymbol(v2);
    var s := [Symbol(v0), Symbol(v1), Symbol(v2), '='];
    assert Encode(b) == EncodePair(x, y) == s;
    assert Decode(s) == DecodeLastGroup(s);
    DecodeLastPair(Symbol(v0), Symbol(v1), Symbol(v2), v0, v1, v2);
    PairArithmetic(x, y);
    var octets := [v0 * 4 + v1 / 16, v1 % 16 * 16 + v2 / 4];
    assert octets[0] == x && octets[1] == y;
    assert octets == b;
  }

  /** Decoding undoes encoding for every octet sequence. */
  lemma {:induction false} DecodeEncode(b: seq<byte>)
    ensures Decode(Encode(b)) == Some(b)
    decreases |b|
  {
    if |b| == 1 {
      DecodeEncodeOne(b);
    } else if |b| == 2 {
      DecodeEncodeTwo(b);
    } else if |b| >= 3 {
      var s := Encode(b);
      var group := EncodeGroup(b[0], b[1], b[2]);
      DecodeEncodeGroup(b[0], b[1], b[2]);
      DecodeEncode(b[3..]);
      assert s[..4] == group && s[4..] == Encode(b[3..]);
      assert b == [b[0], b[1], b[2]] + b[3..];
      if |b| == 3 {
        assert b[3..] == [];
        assert s == group + [];
        assert s[3] != '=';
        assert DecodeLastGroup(s) == DecodeGroup(group);
        assert Decode(s) == DecodeLastGroup(s);
        assert b == [b[0], b[1], b[2]];
      }
    }
  }
}
