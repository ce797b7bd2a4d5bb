/**
 Bounding peer-controlled bytes for diagnosis: the longest whole-character UTF-8
 prefix within a limit, or nothing when what lies below the limit is not UTF-8.
 */
module BoundedText {
  type Byte = b: int | 0 <= b < 256

  const MAX_DIAGNOSTIC_BYTES := 4096

  const RUNE_ERROR := 0xFFFD

  // --- the grammar of section 4 of RFC 3629 ------------------------------------------------------

  predicate Tail(b: Byte) {
    0x80 <= b <= 0xBF
  }

  /** UTF8-char. */
  predicate Character(s: seq<Byte>) {
    || (|s| == 1 && s[0] <= 0x7F)
    || (|s| == 2 && 0xC2 <= s[0] <= 0xDF && Tail(s[1]))
    || (|s| == 3 && Tail(s[2]) &&
        (|| (s[0] == 0xE0 && 0xA0 <= s[1] <= 0xBF)
         || (0xE1 <= s[0] <= 0xEC && Tail(s[1]))
         || (s[0] == 0xED && 0x80 <= s[1] <= 0x9F)
         || (0xEE <= s[0] <= 0xEF && Tail(s[1]))))
    || (|s| == 4 && Tail(s[2]) && Tail(s[3]) &&
        (|| (s[0] == 0xF0 && 0x90 <= s[1] <= 0xBF)
         || (0xF1 <= s[0] <= 0xF3 && Tail(s[1]))
         || (s[0] == 0xF4 && 0x80 <= s[1] <= 0x8F)))
  }

  /** The length of the character a string starts with; 0 when it starts with none. */
  function Leading(s: seq<Byte>): (n: nat)
    ensures n <= |s| && n <= 4
  {
    if |s| >= 1 && Character(s[..1]) then 1
    else if |s| >= 2 && Character(s[..2]) then 2
    else if |s| >= 3 && Character(s[..3]) then 3
    else if |s| >= 4 && Character(s[..4]) then 4
    else 0
  }

  /** UTF8-octets. */
  predicate Text(s: seq<Byte>) {
    s == [] || (Leading(s) > 0 && Text(s[Leading(s)..]))
  }

  // --- utf8.DecodeRune -----------------------------------------------------------------------------

  /** How many bytes a first byte announces, and where the second one must lie. */
  function Announced(b: Byte): nat {
    if 0xC2 <= b <= 0xDF then 2 else if 0xE0 <= b <= 0xEF then 3 else if 0xF0 <= b <= 0xF4 then 4 else 0
  }

  predicate AcceptsSecond(first: Byte, b: Byte) {
    (if first == 0xE0 then 0xA0 else if first == 0xF0 then 0x90 else 0x80)
    <= b <=
    (if first == 0xED then 0x9F else if first == 0xF4 then 0x8F else 0xBF)
  }

  datatype Decoded = Decoded(rune: int, size: nat)

  /** The bits of a byte below a power of two. */
  function Low(b: Byte, power: int): int
    requires power > 0
  {
    b as int % power
  }

  function DecodeRune(s: seq<Byte>): Decoded {
    if s == [] then Decoded(RUNE_ERROR, 0)
    else if s[0] < 0x80 then Decoded(s[0], 1)
    else
      var size := Announced(s[0]);
      if size == 0 || |s| < size || !AcceptsSecond(s[0], s[1]) then Decoded(RUNE_ERROR, 1)
      else if size == 2 then Decoded(Low(s[0], 32) * 64 + Low(s[1], 64), 2)
      else if !Tail(s[2]) then Decoded(RUNE_ERROR, 1)
      else if size == 3 then Decoded(Low(s[0], 16) * 4096 + Low(s[1], 64) * 64 + Low(s[2], 64), 3)
      else if !Tail(s[3]) then Decoded(RUNE_ERROR, 1)
      else Decoded(Low(s[0], 8) * 262144 + Low(s[1], 64) * 4096 + Low(s[2], 64) * 64 + Low(s[3], 64), 4)
  }

  predicate Rejected(d: Decoded) {
    d.rune == RUNE_ERROR && d.size <= 1
  }

  /** The decoder follows the grammar; an encoded U+FFFD is not taken for an error. */
  lemma DecoderFollowsGrammar(s: seq<Byte>)
    ensures Rejected(DecodeRune(s)) <==> Leading(s) == 0
    ensures !Rejected(DecodeRune(s)) ==> DecodeRune(s).size == Leading(s)
  {
    if s != [] { LeadingByFirst(s); }
  }

  /** The octets of a rune, by the table of section 3 of RFC 3629. */
  function Encoded(rune: nat): seq<int> {
    if rune < 0x80 then [rune]
    else if rune < 0x800 then [0xC0 + rune / 64, 0x80 + rune % 64]
    else if rune < 0x1_0000 then [0xE0 + rune / 4096, 0x80 + rune / 64 % 64, 0x80 + rune % 64]
    else [0xF0 + rune / 262144, 0x80 + rune / 4096 % 64, 0x80 + rune / 64 % 64, 0x80 + rune % 64]
  }

  lemma SixBits(high: nat, low: nat)
    requires low < 64
    ensures (high * 64 + low) / 64 == high && (high * 64 + low) % 64 == low
  {
  }

  /** What the decoder reads off a string is the rune its first character encodes. */
  lemma DecodedIsEncoded(s: seq<Byte>)
    requires !Rejected(DecodeRune(s))
    ensures var d := DecodeRune(s); 0 <= d.rune && d.size <= |s| && Encoded(d.rune) == s[..d.size]
  {
    hide Encoded;
    var size := DecodeRune(s).size;
    if size <= 2 {
      TwoOctets(s);
    } else if size == 3 {
      ThreeOctets(s);
    } else {
      FourOctets(s);
    }
  }

  lemma TwoOctets(s: seq<Byte>)
    requires !Rejected(DecodeRune(s)) && DecodeRune(s).size <= 2
    ensures var d := DecodeRune(s); 0 <= d.rune && d.size <= |s| && Encoded(d.rune) == s[..d.size]
  {
    if DecodeRune(s).size == 2 {
      var a: int, b: int := s[0] - 0xC0, s[1] - 0x80;
      assert DecodeRune(s).rune == a * 64 + b;
      SixBits(a, b);
    }
  }

  lemma ThreeOctets(s: seq<Byte>)
    requires !Rejected(DecodeRune(s)) && DecodeRune(s).size == 3
    ensures var d := DecodeRune(s); 0 <= d.rune && Encoded(d.rune) == s[..3]
  {
    var a: int, b: int, c: int := s[0] - 0xE0, s[1] - 0x80, s[2] - 0x80;
    assert DecodeRune(s).rune == (a * 64 + b) * 64 + c;
    assert a == 0 ==> b >= 32;
    BitsOfThree(a, b, c);
    assert s[..3] == [s[0], s[1], s[2]];
  }

  lemma BitsOfThree(a: nat, b: nat, c: nat)
    requires a < 16 && b < 64 && c < 64 && (a == 0 ==> b >= 32)
    ensures var rune := (a * 64 + b) * 64 + c; Encoded(rune) == [0xE0 + a, 0x80 + b, 0x80 + c]
  {
    var rune := (a * 64 + b) * 64 + c;
    SixBits(a, b);
    SixBits(a * 64 + b, c);
    assert rune / 4096 == rune / 64 / 64;
  }

  lemma FourOctets(s: seq<Byte>)
    requires !Rejected(DecodeRune(s)) && DecodeRune(s).size == 4
    ensures var d := DecodeRune(s); 0 <= d.rune && Encoded(d.rune) == s[..4]
  {
    var a: int, b: int, c: int, e: int := s[0] - 0xF0, s[1] - 0x80, s[2] - 0x80, s[3] - 0x80;
    assert DecodeRune(s).rune == ((a * 64 + b) * 64 + c) * 64 + e;
    assert a == 0 ==> b >= 16;
    BitsOfFour(a, b, c, e);
    assert s[..4] == [s[0], s[1], s[2], s[3]];
  }

  lemma BitsOfFour(a: nat, b: nat, c: nat, e: nat)
    requires a < 8 && b < 64 && c < 64 && e < 64 && (a == 0 ==> b >= 16)
    ensures var rune := ((a * 64 + b) * 64 + c) * 64 + e; Encoded(rune) == [0xF0 + a, 0x80 + b, 0x80 + c, 0x80 + e]
  {
    var rune := ((a * 64 + b) * 64 + c) * 64 + e;
    SixBits(a, b);
    SixBits(a * 64 + b, c);
    SixBits((a * 64 + b) * 64 + c, e);
    assert rune / 4096 == rune / 64 / 64 && rune / 262144 == rune / 64 / 64 / 64;
  }

  lemma LeadingByFirst(s: seq<Byte>)
    requires s != []
    ensures s[0] < 0x80 ==> Leading(s) == 1
    ensures s[0] >= 0x80 && (Announced(s[0]) == 0 || |s| < Announced(s[0])) ==> Leading(s) == 0
    ensures s[0] >= 0x80 && 0 < Announced(s[0]) <= |s| ==>
              var whole := AcceptsSecond(s[0], s[1]) && forall k :: 2 <= k < Announced(s[0]) ==> Tail(s[k]);
              Leading(s) == if whole then Announced(s[0]) else 0
  {
  }

  // --- whole-character prefixes -------------------------------------------------------------------

  lemma LeadingOfPrefix(s: seq<Byte>, j: nat)
    requires j <= |s|
    ensures Leading(s[..j]) == if Leading(s) <= j then Leading(s) else 0
  {
    assert forall n :: 0 <= n <= j ==> s[..j][..n] == s[..n];
  }

  lemma {:induction false} TextThenCharacter(s: seq<Byte>, end: nat)
    requires end <= |s| && Text(s[..end]) && Leading(s[end..]) > 0
    ensures Text(s[..end + Leading(s[end..])])
  {
    hide Leading, Character;
    var n := Leading(s[end..]);
    if end == 0 {
      assert s[0..] == s;
      LeadingOfPrefix(s, n);
      assert s[..n][n..] == [];
    } else {
      var m := Leading(s[..end]);
      LeadingOfPrefix(s, end);
      LeadingOfPrefix(s, end + n);
      assert s[..end][m..] == s[m..][..end - m];
      assert s[m..][end - m..] == s[end..];
      TextThenCharacter(s[m..], end - m);
      assert s[..end + n][m..] == s[m..][..end + n - m];
    }
  }

  /** Character boundaries are unambiguous: after one, the rest of a text is a text. */
  lemma {:induction false} TextAfterText(s: seq<Byte>, i: nat, j: nat)
    requires i <= j <= |s| && Text(s[..i]) && Text(s[..j])
    ensures Text(s[i..j])
  {
    hide Leading, Character;
    if i == 0 {
      assert s[0..j] == s[..j];
    } else {
      var m := Leading(s[..i]);
      LeadingOfPrefix(s, i);
      LeadingOfPrefix(s, j);
      assert s[..i][m..] == s[m..][..i - m];
      assert s[..j][m..] == s[m..][..j - m];
      TextAfterText(s[m..], i - m, j - m);
      assert s[m..][i - m..j - m] == s[i..j];
    }
  }

  /** Past a boundary, the next boundary is one character away, or there is none. */
  lemma NextBoundary(s: seq<Byte>, end: nat, j: nat)
    requires end < j <= |s| && Text(s[..end]) && Text(s[..j])
    ensures 0 < Leading(s[end..]) <= j - end
  {
    TextAfterText(s, end, j);
    LeadingOfPrefix(s[end..], j - end);
    assert s[end..][..j - end] == s[end..j];
  }

  // --- boundedPrefix ------------------------------------------------------------------------------

  function Least(a: nat, b: nat): nat {
    if a < b then a else b
  }

  /** All that lies below the limit is UTF-8, counting a character that reaches over it. */
  ghost predicate Readable(value: seq<Byte>, limit: nat) {
    exists k :: Least(|value|, limit) <= k <= |value| && Text(value[..k])
  }

  ghost predicate LongestWithin(value: seq<Byte>, limit: nat, prefix: seq<Byte>) {
    && prefix <= value && |prefix| <= limit && Text(prefix)
    && (forall j :: |prefix| < j <= |value| && j <= limit ==> !Text(value[..j]))
    && (prefix == value || limit <= |prefix| + 3)
  }

  method BoundedPrefix(value: seq<Byte>, limit: nat) returns (prefix: seq<Byte>, ok: bool)
    ensures ok <==> Readable(value, limit)
    ensures ok ==> LongestWithin(value, limit, prefix)
  {
    var end := 0;
    while end < |value| && end < limit
      invariant end <= Least(|value|, limit) && Text(value[..end])
    {
      var d := DecodeRune(value[end..]);
      DecoderFollowsGrammar(value[end..]);
      if Rejected(d) {
        NothingBeyond(value, end, |value|);
        return [], false;
      }
      TextThenCharacter(value, end);
      if end + d.size > limit {
        NothingBeyond(value, end, limit);
        return value[..end], true;
      }
      end := end + d.size;
    }
    assert end == |value| ==> value[..end] == value;
    return value[..end], true;
  }

  lemma NothingBeyond(value: seq<Byte>, end: nat, to: nat)
    requires end < |value| && Text(value[..end])
    requires Leading(value[end..]) == 0 || end + Leading(value[end..]) > to
    ensures forall j :: end < j <= |value| && j <= to ==> !Text(value[..j])
  {
    forall j | end < j <= |value| && j <= to && Text(value[..j]) ensures false {
      NextBoundary(value, end, j);
    }
  }

  // --- what the answer depends on ---------------------------------------------------------------

  lemma {:induction false} BoundaryNear(value: seq<Byte>, limit: nat, from: nat, k: nat) returns (near: nat)
    requires from <= k <= |value| && Text(value[..from]) && Text(value[..k])
    requires from <= limit + 3 && limit <= k
    ensures limit <= near <= limit + 3 && near <= k && Text(value[..near])
    decreases k - from
  {
    if from >= limit { return from; }
    NextBoundary(value, from, k);
    TextThenCharacter(value, from);
    near := BoundaryNear(value, limit, from + Leading(value[from..]), k);
  }

  /** The last character that matters starts below the limit and has at most four bytes. */
  lemma FourBytesSuffice(value: seq<Byte>, limit: nat, prefix: seq<Byte>)
    requires |value| > limit + 3
    ensures Readable(value, limit) <==> Readable(value[..limit + 3], limit)
    ensures LongestWithin(value, limit, prefix) <==> LongestWithin(value[..limit + 3], limit, prefix)
  {
    var head := value[..limit + 3];
    assert forall k :: 0 <= k <= limit + 3 ==> head[..k] == value[..k];
    if Readable(value, limit) {
      var k :| limit <= k <= |value| && Text(value[..k]);
      var near := BoundaryNear(value, limit, 0, k);
      assert Text(head[..near]);
    }
    if Readable(head, limit) {
      var k :| limit <= k <= |head| && Text(head[..k]);
      assert Text(value[..k]);
    }
  }

  lemma LongestIsUnique(value: seq<Byte>, limit: nat, p: seq<Byte>, q: seq<Byte>)
    requires LongestWithin(value, limit, p) && LongestWithin(value, limit, q)
    ensures p == q
  {
    assert p == value[..|p|] && q == value[..|q|];
  }

  function Head(value: seq<Byte>, limit: nat): seq<Byte> {
    value[..Least(|value|, limit + 3)]
  }

  lemma HeadSuffices(value: seq<Byte>, limit: nat, prefix: seq<Byte>)
    ensures Readable(value, limit) <==> Readable(Head(value, limit), limit)
    ensures LongestWithin(value, limit, prefix) <==> LongestWithin(Head(value, limit), limit, prefix)
  {
    if |value| > limit + 3 {
      FourBytesSuffice(value, limit, prefix);
    } else {
      assert Head(value, limit) == value;
    }
  }

  /** Values that agree on three bytes beyond the limit have the same answer: whether, and which. */
  lemma HeadDecides(v: seq<Byte>, w: seq<Byte>, limit: nat, p: seq<Byte>, q: seq<Byte>)
    requires Head(v, limit) == Head(w, limit)
    ensures Readable(v, limit) <==> Readable(w, limit)
    ensures LongestWithin(v, limit, p) && LongestWithin(w, limit, q) ==> p == q
  {
    HeadSuffices(v, limit, p);
    HeadSuffices(w, limit, q);
    if LongestWithin(v, limit, p) && LongestWithin(w, limit, q) {
      LongestIsUnique(Head(v, limit), limit, p, q);
    }
  }

  // --- captureDiagnostic ----------------------------------------------------------------------------

  datatype Capture = Capture(text: seq<Byte>, length: nat, truncated: bool, readable: bool)

  method CaptureDiagnostic(value: seq<Byte>) returns (c: Capture)
    ensures c.length == |value|
    ensures c.truncated <==> |value| > 4096
    ensures c.readable <==> Readable(value, MAX_DIAGNOSTIC_BYTES)
    ensures if c.readable then LongestWithin(value, MAX_DIAGNOSTIC_BYTES, c.text) else c.text == []
  {
    c := Capture([], |value|, |value| > MAX_DIAGNOSTIC_BYTES, false);
    var prefix, ok := BoundedPrefix(value, MAX_DIAGNOSTIC_BYTES);
    if !ok { return; }
    ReadableWhole(value, MAX_DIAGNOSTIC_BYTES, prefix);
    c := c.(text := prefix, truncated := |prefix| < |value|, readable := true);
  }

  /** Within the limit nothing is cut. */
  lemma ReadableWhole(value: seq<Byte>, limit: nat, prefix: seq<Byte>)
    requires Readable(value, limit) && LongestWithin(value, limit, prefix)
    ensures prefix == value <==> |value| <= limit
  {
    if |value| <= limit {
      assert value[..|value|] == value;
      assert Text(value[..|value|]);
    }
  }
}
