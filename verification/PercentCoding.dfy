/** Percent coding of byte strings, and the callback's query parser, as the gateway client writes them. */
module PercentCoding {
  import opened Texts
  import opened Wrappers

  type byte = b: int | 0 <= b < 256

  const PERCENT: byte := 0x25
  const AMPERSAND: byte := 0x26
  const PLUS: byte := 0x2B
  const EQUALS: byte := 0x3D
  const SPACE: byte := 0x20

  predicate Unreserved(b: byte) {
    || 0x41 <= b <= 0x5A || 0x61 <= b <= 0x7A || 0x30 <= b <= 0x39
    || b == 0x2D || b == 0x5F || b == 0x2E || b == 0x7E
  }

  function HexDigit(n: nat): byte
    requires n < 16
  {
    if n < 10 then 0x30 + n else 0x41 + n - 10
  }

  function HexValue(b: byte): Option<nat> {
    if 0x30 <= b <= 0x39 then Some(b - 0x30)
    else if 0x41 <= b <= 0x46 then Some(b - 0x41 + 10)
    else if 0x61 <= b <= 0x66 then Some(b - 0x61 + 10)
    else None
  }

  /** The library's radix-16 parse of two characters, which also takes a plus sign before one digit. */
  function HexPair(x: byte, y: byte): Option<byte> {
    match (HexValue(x), HexValue(y))
    case (Some(hi), Some(lo)) => Some(hi * 16 + lo)
    case (None, Some(lo)) => if x == PLUS then Some(lo) else None
    case _ => None
  }

  function EncodeByte(b: byte): seq<byte> {
    if Unreserved(b) then [b] else [PERCENT, HexDigit(b / 16), HexDigit(b % 16)]
  }

  /** Section 2.1 of RFC 3986: every byte outside the unreserved set becomes an upper-case triplet. */
  function Encode(s: seq<byte>): seq<byte> {
    if s == [] then [] else EncodeByte(s[0]) + Encode(s[1..])
  }

  /** What decoding makes of the front of a non-empty text: a byte, and how much of the text it took. */
  function DecodeFront(s: seq<byte>): (front: (byte, nat))
    requires s != []
    ensures 1 <= front.1 <= |s|
  {
    if s[0] == PERCENT && |s| > 2 && HexPair(s[1], s[2]).Some? then (HexPair(s[1], s[2]).value, 3)
    else if s[0] == PLUS then (SPACE, 1)
    else (s[0], 1)
  }

  function Decode(s: seq<byte>): seq<byte> {
    if s == [] then [] else
      var (b, taken) := DecodeFront(s);
      [b] + Decode(s[taken..])
  }

  method UrlEncode(s: seq<byte>) returns (out: seq<byte>)
    ensures out == Encode(s)
  {
    out := [];
    for i := 0 to |s|
      invariant out + Encode(s[i..]) == Encode(s)
    {
      var b := s[i];
      OneByteEncoded(out, s, i);
      ghost var before := out;
      if Unreserved(b) {
        out := out + [b];
      } else {
        out := out + [PERCENT, HexDigit(b / 16), HexDigit(b % 16)];
      }
      assert out == before + EncodeByte(b);
    }
  }

  lemma OneByteEncoded(out: seq<byte>, s: seq<byte>, i: nat)
    requires i < |s|
    ensures out + Encode(s[i..]) == out + EncodeByte(s[i]) + Encode(s[i + 1..])
  {
    assert s[i..][1..] == s[i + 1..];
  }

  method UrlDecode(s: seq<byte>) returns (out: seq<byte>)
    ensures out == Decode(s)
  {
    out := [];
    var i := 0;
    while i < |s|
      invariant 0 <= i <= |s|
      invariant out + Decode(s[i..]) == Decode(s)
    {
      var (b, taken) := DecodeFront(s[i..]);
      assert s[i..][taken..] == s[i + taken..];
      assert out + ([b] + Decode(s[i + taken..])) == (out + [b]) + Decode(s[i + taken..]);
      if s[i] == PERCENT && i + 2 < |s| {
        var hex := HexPair(s[i + 1], s[i + 2]);
        if hex.Some? {
          out := out + [hex.value];
          i := i + 3;
        } else {
          out := out + [PERCENT];
          i := i + 1;
        }
      } else if s[i] == PLUS {
        out := out + [SPACE];
        i := i + 1;
      } else {
        out := out + [s[i]];
        i := i + 1;
      }
    }
  }

  lemma HexRoundTrip(b: byte)
    ensures HexPair(HexDigit(b / 16), HexDigit(b % 16)) == Some(b)
  {}

  lemma FrontRoundTrip(b: byte, tail: seq<byte>)
    ensures DecodeFront(EncodeByte(b) + tail) == (b, |EncodeByte(b)|)
    ensures (EncodeByte(b) + tail)[|EncodeByte(b)|..] == tail
  {
    HexRoundTrip(b);
  }

  lemma EncodedByteDecodes(b: byte, tail: seq<byte>)
    ensures Decode(EncodeByte(b) + tail) == [b] + Decode(tail)
  {
    FrontRoundTrip(b, tail);
  }

  /** Decoding undoes encoding also in front of any other text. */
  lemma {:induction false} DecodeEncodedFront(s: seq<byte>, rest: seq<byte>)
    ensures Decode(Encode(s) + rest) == s + Decode(rest)
    decreases |s|
  {
    if s == [] {
      assert Encode(s) + rest == rest;
    } else {
      var tail := Encode(s[1..]) + rest;
      calc {
        Decode(Encode(s) + rest);
      ==  { assert Encode(s) + rest == EncodeByte(s[0]) + tail; }
        Decode(EncodeByte(s[0]) + tail);
      ==  { EncodedByteDecodes(s[0], tail); }
        [s[0]] + Decode(tail);
      ==  { DecodeEncodedFront(s[1..], rest); }
        [s[0]] + (s[1..] + Decode(rest));
      ==
        s + Decode(rest);
      }
    }
  }

  /** MAIN: decoding undoes encoding on every byte string. */
  lemma RoundTrip(s: seq<byte>)
    ensures Decode(Encode(s)) == s
  {
    DecodeEncodedFront(s, []);
    assert Encode(s) + [] == Encode(s);
  }

  /** Encoding never collides, and its text never holds a separator. */
  lemma EncodeInjective(a: seq<byte>, b: seq<byte>)
    requires Encode(a) == Encode(b)
    ensures a == b
  {
    RoundTrip(a);
    RoundTrip(b);
  }

  lemma EncodedPlain(s: seq<byte>)
    ensures AMPERSAND !in Encode(s) && EQUALS !in Encode(s) && PLUS !in Encode(s)
  {}

  /** A hex digit as it may be spelled, in either case. */
  predicate Spells(b: byte, digit: nat) {
    || (digit < 10 && b == 0x30 + digit)
    || (10 <= digit < 16 && (b == 0x41 + (digit - 10) || b == 0x61 + (digit - 10)))
  }

  /** MAIN: an escape spelled in upper or lower case, or both, decodes to its byte, and decoding goes on behind it. */
  lemma EscapeDecodes(x: byte, y: byte, hi: nat, lo: nat, rest: seq<byte>)
    requires Spells(x, hi) && Spells(y, lo)
    ensures Decode([0x25, x, y] + rest) == [hi * 16 + lo] + Decode(rest)
  {
    var s: seq<byte> := [0x25, x, y] + rest;
    assert s[3..] == rest;
  }

  /** A plus sign decodes to a space, any other byte but the percent sign to itself. */
  lemma PlainDecodes(b: byte, rest: seq<byte>)
    requires b != 0x25
    ensures Decode([b] + rest) == [if b == 0x2B then 0x20 else b] + Decode(rest)
  {
    assert ([b] + rest)[1..] == rest;
  }

  predicate IsHex(b: byte) { 0x30 <= b <= 0x39 || 0x41 <= b <= 0x46 || 0x61 <= b <= 0x66 }

  /** Beyond the standard, a plus sign and one hex digit are taken for an escape too. */
  lemma PlusEscapeDecodes(y: byte, lo: nat, rest: seq<byte>)
    requires Spells(y, lo)
    ensures Decode([0x25, 0x2B, y] + rest) == [lo] + Decode(rest)
  {
    var s: seq<byte> := [0x25, 0x2B, y] + rest;
    assert s[3..] == rest;
  }

  /** A percent sign that starts no escape stands for itself. */
  lemma PercentStays(rest: seq<byte>)
    requires |rest| >= 2 ==> !IsHex(rest[1]) || !(IsHex(rest[0]) || rest[0] == 0x2B)
    ensures Decode([0x25] + rest) == [0x25] + Decode(rest)
  {
    assert |rest| >= 2 ==> HexPair(rest[0], rest[1]).None?;
    assert DecodeFront([PERCENT] + rest) == (PERCENT, 1);
    assert ([PERCENT] + rest)[1..] == rest;
  }

  /** Which three-byte escapes decode to one byte: two hex digits, and, beyond the standard, a plus and one digit. */
  lemma EscapesDecoded(x: byte, y: byte)
    ensures |Decode([PERCENT, x, y])| == 1
       <==> IsHex(y) && (IsHex(x) || x == 0x2B)
  {
    var s := [PERCENT, x, y];
    if HexPair(x, y).Some? {
      assert s[3..] == [];
    } else {
      assert s[1..] == [x, y] && [x, y][1..] == [y];
      assert |Decode([x, y])| >= 1;
    }
  }

  /***** The callback's query string *****/

  function Split(s: seq<byte>, sep: byte): seq<seq<byte>>
    decreases |s|
  {
    if sep !in s then [s]
    else [Before(s, sep)] + Split(s[|Before(s, sep)| + 1..], sep)
  }

  type Pair = (seq<byte>, seq<byte>)

  /** Splits at the first `=` and decodes both sides; pieces without one are skipped. */
  function ParsePiece(kv: seq<byte>): Option<Pair> {
    if EQUALS !in kv then None
    else Some((Decode(Before(kv, EQUALS)), Decode(kv[|Before(kv, EQUALS)| + 1..])))
  }

  /** Collects the pairs into a map, a later pair replacing an earlier one. */
  function Collect(pieces: seq<seq<byte>>, params: map<seq<byte>, seq<byte>>): map<seq<byte>, seq<byte>> {
    if pieces == [] then params else
      match ParsePiece(pieces[0])
      case None => Collect(pieces[1..], params)
      case Some((k, v)) => Collect(pieces[1..], params[k := v])
  }

  function ParseQuery(query: seq<byte>): map<seq<byte>, seq<byte>> {
    Collect(Split(query, AMPERSAND), map[])
  }

  /** The query string a gateway builds from a non-empty list of parameters. */
  function RenderPair(p: Pair): seq<byte> {
    Encode(p.0) + [EQUALS] + Encode(p.1)
  }

  function Render(pairs: seq<Pair>): seq<byte> {
    if pairs == [] then []
    else if |pairs| == 1 then RenderPair(pairs[0])
    else RenderPair(pairs[0]) + [AMPERSAND] + Render(pairs[1..])
  }

  function WithPairs(params: map<seq<byte>, seq<byte>>, pairs: seq<Pair>): map<seq<byte>, seq<byte>>
    decreases |pairs|
  {
    if pairs == [] then params else WithPairs(params[pairs[0].0 := pairs[0].1], pairs[1..])
  }

  lemma {:induction false} BeforeAt(head: seq<byte>, sep: byte, tail: seq<byte>)
    requires sep !in head
    ensures Before(head + [sep] + tail, sep) == head
    ensures (head + [sep] + tail)[|head| + 1..] == tail
  {
    var s := head + [sep] + tail;
    if head == [] {
    } else {
      BeforeAt(head[1..], sep, tail);
      assert s[1..] == head[1..] + [sep] + tail;
    }
  }

  lemma PieceParses(p: Pair)
    ensures ParsePiece(RenderPair(p)) == Some(p)
    ensures AMPERSAND !in RenderPair(p)
  {
    EncodedPlain(p.0);
    EncodedPlain(p.1);
    BeforeAt(Encode(p.0), EQUALS, Encode(p.1));
    assert RenderPair(p)[|Encode(p.0)|] == EQUALS;
    RoundTrip(p.0);
    RoundTrip(p.1);
  }

  /** The first rendered pair is the first piece. */
  lemma RenderSplits(pairs: seq<Pair>)
    requires |pairs| > 1
    ensures Split(Render(pairs), AMPERSAND) == [RenderPair(pairs[0])] + Split(Render(pairs[1..]), AMPERSAND)
  {
    var head, tail := RenderPair(pairs[0]), Render(pairs[1..]);
    PieceParses(pairs[0]);
    BeforeAt(head, AMPERSAND, tail);
    assert (head + [AMPERSAND] + tail)[|head|] == AMPERSAND;
  }

  lemma {:induction false} QueryParses(pairs: seq<Pair>, params: map<seq<byte>, seq<byte>>)
    ensures Collect(Split(Render(pairs), AMPERSAND), params) == WithPairs(params, pairs)
    decreases |pairs|
  {
    if pairs != [] {
      var p := pairs[0];
      var params' := params[p.0 := p.1];
      PieceParses(p);
      if |pairs| == 1 {
        assert Split(Render(pairs), AMPERSAND)[1..] == [];
        assert pairs[1..] == [];
      } else {
        RenderSplits(pairs);
        var pieces := Split(Render(pairs), AMPERSAND);
        assert pieces[1..] == Split(Render(pairs[1..]), AMPERSAND);
        QueryParses(pairs[1..], params');
      }
    }
  }

  lemma {:induction false} PairsFound(params: map<seq<byte>, seq<byte>>, pairs: seq<Pair>)
    requires forall i, j :: 0 <= i < j < |pairs| ==> pairs[i].0 != pairs[j].0
    ensures forall k ::
              k in WithPairs(params, pairs) <==> k in params || exists i :: 0 <= i < |pairs| && pairs[i].0 == k
    ensures forall i :: 0 <= i < |pairs| ==> WithPairs(params, pairs)[pairs[i].0] == pairs[i].1
    ensures forall k | k in params && (forall i :: 0 <= i < |pairs| ==> pairs[i].0 != k) ::
              WithPairs(params, pairs)[k] == params[k]
    decreases |pairs|
  {
    if pairs != [] {
      var rest := pairs[1..];
      PairsFound(params[pairs[0].0 := pairs[0].1], rest);
      assert forall i :: 0 < i < |pairs| ==> pairs[i] == rest[i - 1];
      assert forall i :: 0 <= i < |rest| ==> rest[i] == pairs[i + 1];
    }
  }

  /** A piece without `=` is skipped, whatever else the query holds. */
  lemma BarePieceSkipped(piece: seq<byte>, rest: seq<seq<byte>>, params: map<seq<byte>, seq<byte>>)
    requires 0x3D !in piece
    ensures Collect([piece] + rest, params) == Collect(rest, params)
  {
    assert ([piece] + rest)[1..] == rest;
  }

  /** A piece is split at its first `=`; a later pair replaces an earlier one of the same key. */
  lemma FirstEqualsSplits(key: seq<byte>, value: seq<byte>, rest: seq<seq<byte>>, params: map<seq<byte>, seq<byte>>)
    requires 0x3D !in key
    ensures Collect([key + [0x3D] + value] + rest, params) == Collect(rest, params[Decode(key) := Decode(value)])
  {
    BeforeAt(key, EQUALS, value);
    var pieces := [key + [EQUALS] + value] + rest;
    assert pieces[0][|key|] == EQUALS && pieces[1..] == rest;
  }

  /** MAIN: the callback recovers exactly the parameters that were sent, for any list with distinct keys. */
  lemma CallbackRecovers(pairs: seq<Pair>)
    requires forall i, j :: 0 <= i < j < |pairs| ==> pairs[i].0 != pairs[j].0
    ensures forall k :: k in ParseQuery(Render(pairs)) <==> exists i :: 0 <= i < |pairs| && pairs[i].0 == k
    ensures forall i :: 0 <= i < |pairs| ==> ParseQuery(Render(pairs))[pairs[i].0] == pairs[i].1
  {
    QueryParses(pairs, map[]);
    PairsFound(map[], pairs);
  }
}
