/**
 UTF-8 as section 3 of RFC 3629 encodes it, and the byte automaton of
 src/vkexec_profiling/chrome_trace.cpp that recognises it.
 */
module Utf8 {
  import opened Optional

  newtype Byte = x: int | 0 <= x < 0x100

  type Bytes = seq<Byte>

  /** A Unicode scalar value: a code point that is not a surrogate. */
  predicate Scalar(c: nat) {
    c < 0xD800 || 0xE000 <= c < 0x110000
  }

  /** Section 3 of RFC 3629. */
  function Encode(c: nat): Bytes
    requires Scalar(c)
  {
    if c < 0x80 then [c as Byte]
    else if c < 0x800 then [(0xC0 + c / 0x40) as Byte, Tail(c)]
    else if c < 0x10000 then [(0xE0 + c / 0x1000) as Byte, Tail(c / 0x40), Tail(c)]
    else [(0xF0 + c / 0x40000) as Byte, Tail(c / 0x1000), Tail(c / 0x40), Tail(c)]
  }

  function Tail(c: nat): Byte {
    (0x80 + c % 0x40) as Byte
  }

  predicate Scalars(cs: seq<nat>) {
    forall i | 0 <= i < |cs| :: Scalar(cs[i])
  }

  function EncodeAll(cs: seq<nat>): Bytes
    requires Scalars(cs)
  {
    if cs == [] then [] else Encode(cs[0]) + EncodeAll(cs[1..])
  }

  /** The bytes are the UTF-8 of some text. */
  ghost predicate IsUtf8(s: Bytes) {
    exists cs :: Scalars(cs) && EncodeAll(cs) == s
  }

  // ------------------------------------------------------- the automaton

  const CONTINUATION_MIN: Byte := 0x80
  const CONTINUATION_MAX: Byte := 0xBF

  /** What a lead byte asks of the bytes after it: how many, and the range of the first. */
  datatype Expect = Expect(remaining: nat, lower: Byte, upper: Byte)

  const START := Expect(0, CONTINUATION_MIN, CONTINUATION_MAX)

  /** classify_utf8_lead. */
  function ClassifyLead(b: Byte): Option<Expect> {
    if 0xC2 <= b <= 0xDF then Some(START.(remaining := 1))
    else if b == 0xE0 then Some(START.(remaining := 2, lower := 0xA0))
    else if 0xE1 <= b <= 0xEC || 0xEE <= b <= 0xEF then Some(START.(remaining := 2))
    else if b == 0xED then Some(START.(remaining := 2, upper := 0x9F))
    else if b == 0xF0 then Some(START.(remaining := 3, lower := 0x90))
    else if 0xF1 <= b <= 0xF3 then Some(START.(remaining := 3))
    else if b == 0xF4 then Some(START.(remaining := 3, upper := 0x8F))
    else None
  }

  function Step(e: Expect, b: Byte): Option<Expect> {
    if e.remaining == 0 then
      if b <= 0x7F then Some(e) else ClassifyLead(b)
    else if e.lower <= b <= e.upper then Some(START.(remaining := e.remaining - 1))
    else None
  }

  predicate Accepts(s: Bytes, e: Expect) {
    if s == [] then e.remaining == 0
    else Step(e, s[0]).Some? && Accepts(s[1..], Step(e, s[0]).value)
  }

  /** valid_utf8: the loop accepts exactly the encodings of texts. */
  method ValidUtf8(value: Bytes) returns (ok: bool)
    ensures ok <==> IsUtf8(value)
  {
    AcceptsIsUtf8(value);
    var state := START;
    for i := 0 to |value|
      invariant Accepts(value, START) <==> Accepts(value[i..], state)
      invariant state.remaining == 0 ==> state == START
    {
      assert value[i..][1..] == value[i + 1..];
      var b := value[i];
      if state.remaining == 0 {
        if b <= 0x7F { continue; }
        var lead := ClassifyLead(b);
        if lead.None? { return false; }
        state := lead.value;
      } else {
        if b < state.lower || b > state.upper { return false; }
        state := Expect(state.remaining - 1, CONTINUATION_MIN, CONTINUATION_MAX);
      }
    }
    assert value[|value|..] == [];
    ok := state.remaining == 0;
  }

  // ------------------------------------- the automaton accepts one character

  /** The bytes of one character other than the first, as the automaton takes them. */
  predicate Takes(s: Bytes, e: Expect) {
    |s| >= e.remaining
    && (e.remaining >= 1 ==> e.lower <= s[0] <= e.upper)
    && (e.remaining >= 2 ==> CONTINUATION_MIN <= s[1] <= CONTINUATION_MAX)
    && (e.remaining >= 3 ==> CONTINUATION_MIN <= s[2] <= CONTINUATION_MAX)
  }

  lemma AcceptsTail(s: Bytes, e: Expect)
    requires 1 <= e.remaining <= 3
    ensures Accepts(s, e) <==> Takes(s, e) && Accepts(s[e.remaining..], START)
  {
    if s != [] && e.lower <= s[0] <= e.upper {
      var next := START.(remaining := e.remaining - 1);
      if e.remaining > 1 {
        AcceptsTail(s[1..], next);
        assert |s| >= e.remaining ==> s[1..][e.remaining - 1..] == s[e.remaining..];
      }
    }
  }

  /** The length of the character at the front of s, 0 when there is none. */
  function CharLength(s: Bytes): (n: nat)
    ensures n <= |s| && n <= 4
  {
    if s == [] then 0
    else if s[0] <= 0x7F then 1
    else
      var lead := ClassifyLead(s[0]);
      if lead.Some? && Takes(s[1..], lead.value) then 1 + lead.value.remaining else 0
  }

  lemma AcceptsByCharacter(s: Bytes)
    ensures Accepts(s, START) <==> s == [] || (CharLength(s) > 0 && Accepts(s[CharLength(s)..], START))
  {
    if s != [] && s[0] > 0x7F {
      var lead := ClassifyLead(s[0]);
      if lead.Some? {
        AcceptsTail(s[1..], lead.value);
        if Takes(s[1..], lead.value) {
          assert s[1..][lead.value.remaining..] == s[1 + lead.value.remaining..];
        }
      }
    }
  }

  // ---------------------------------------- characters and scalar values

  /** The payload of a continuation byte. */
  function Low(b: Byte): nat {
    b as nat % 0x40
  }

  /** The scalar value the bytes of one character stand for. */
  function Decode(s: Bytes): nat
    requires |s| > 0 && CharLength(s) == |s|
  {
    if |s| == 1 then s[0] as nat
    else if |s| == 2 then (s[0] as nat - 0xC0) * 0x40 + Low(s[1])
    else if |s| == 3 then (s[0] as nat - 0xE0) * 0x1000 + Low(s[1]) * 0x40 + Low(s[2])
    else (s[0] as nat - 0xF0) * 0x40000 + Low(s[1]) * 0x1000 + Low(s[2]) * 0x40 + Low(s[3])
  }

  /** Base 0x40 digits are recovered by division. */
  lemma Digits(c: nat, high: nat, low: nat)
    requires c == high * 0x40 + low && low < 0x40
    ensures c / 0x40 == high && c % 0x40 == low
  {
  }

  lemma Digits3(c: nat, a: nat, x: nat, y: nat)
    requires c == a * 0x1000 + x * 0x40 + y && x < 0x40 && y < 0x40
    ensures c / 0x1000 == a && c / 0x40 % 0x40 == x && c % 0x40 == y
  {
    Digits(c, a * 0x40 + x, y);
    Digits(c / 0x40, a, x);
  }

  lemma Digits4(c: nat, a: nat, w: nat, x: nat, y: nat)
    requires c == a * 0x40000 + w * 0x1000 + x * 0x40 + y && w < 0x40 && x < 0x40 && y < 0x40
    ensures c / 0x40000 == a && c / 0x1000 % 0x40 == w && c / 0x40 % 0x40 == x && c % 0x40 == y
  {
    Digits(c, a * 0x1000 + w * 0x40 + x, y);
    Digits3(c / 0x40, a, w, x);
  }

  predicate Continuation(b: Byte) {
    CONTINUATION_MIN <= b <= CONTINUATION_MAX
  }

  /** The characters of section 4 of RFC 3629, by length. */
  predicate Shape(s: Bytes)
    requires 1 <= |s| <= 4
  {
    if |s| == 1 then s[0] <= 0x7F
    else if |s| == 2 then 0xC2 <= s[0] <= 0xDF && Continuation(s[1])
    else if |s| == 3 then
      0xE0 <= s[0] <= 0xEF && Continuation(s[1]) && Continuation(s[2])
      && (s[0] == 0xE0 ==> s[1] >= 0xA0) && (s[0] == 0xED ==> s[1] <= 0x9F)
    else
      0xF0 <= s[0] <= 0xF4 && Continuation(s[1]) && Continuation(s[2]) && Continuation(s[3])
      && (s[0] == 0xF0 ==> s[1] >= 0x90) && (s[0] == 0xF4 ==> s[1] <= 0x8F)
  }

  lemma CharacterShape(s: Bytes)
    requires 1 <= |s| <= 4
    ensures CharLength(s) == |s| <==> Shape(s)
  {
  }

  /** A character's bytes encode the value they stand for. */
  lemma DecodeEncodes(s: Bytes)
    requires |s| > 0 && CharLength(s) == |s|
    ensures Scalar(Decode(s)) && Encode(Decode(s)) == s
  {
    CharacterShape(s);
    hide CharLength;
    if |s| == 2 {
      Digits(Decode(s), s[0] as nat - 0xC0, Low(s[1]));
    } else if |s| == 3 {
      Digits3(Decode(s), s[0] as nat - 0xE0, Low(s[1]), Low(s[2]));
    } else if |s| == 4 {
      Digits4(Decode(s), s[0] as nat - 0xF0, Low(s[1]), Low(s[2]), Low(s[3]));
    }
  }

  lemma LowOfTail(c: nat)
    ensures Low(Tail(c)) == c % 0x40
  {
  }

  lemma EncodeIsCharacter(c: nat, rest: Bytes)
    requires Scalar(c)
    ensures CharLength(Encode(c) + rest) == |Encode(c)| > 0
  {
  }

  lemma EncodeDecodes(c: nat)
    requires Scalar(c)
    ensures CharLength(Encode(c)) == |Encode(c)| > 0 && Decode(Encode(c)) == c
  {
    EncodeIsCharacter(c, []);
    assert Encode(c) + [] == Encode(c);
    LowOfTail(c);
    LowOfTail(c / 0x40);
    LowOfTail(c / 0x1000);
    hide CharLength, Low, Tail;
    assert c / 0x40 / 0x40 == c / 0x1000 && c / 0x1000 / 0x40 == c / 0x40000;
  }

  // ------------------------------------------------------ texts

  lemma {:induction false} AcceptsIsUtf8(s: Bytes)
    ensures Accepts(s, START) <==> IsUtf8(s)
  {
    if Accepts(s, START) {
      var cs := Text(s);
    }
    if cs :| Scalars(cs) && EncodeAll(cs) == s {
      TextIsAccepted(cs);
    }
  }

  lemma {:induction false} Text(s: Bytes) returns (cs: seq<nat>)
    requires Accepts(s, START)
    ensures Scalars(cs) && EncodeAll(cs) == s
    decreases |s|
  {
    if s == [] {
      return [];
    }
    AcceptsByCharacter(s);
    var n := CharLength(s);
    PrefixLength(s);
    DecodeEncodes(s[..n]);
    var rest := Text(s[n..]);
    cs := [Decode(s[..n])] + rest;
    assert cs[1..] == rest;
    assert s[..n] + s[n..] == s;
  }

  lemma PrefixLength(s: Bytes)
    requires CharLength(s) > 0
    ensures CharLength(s[..CharLength(s)]) == CharLength(s)
  {
  }

  lemma {:induction false} TextIsAccepted(cs: seq<nat>)
    requires Scalars(cs)
    ensures Accepts(EncodeAll(cs), START)
  {
    if cs != [] {
      var rest := EncodeAll(cs[1..]);
      TextIsAccepted(cs[1..]);
      EncodeIsCharacter(cs[0], rest);
      AcceptsByCharacter(EncodeAll(cs));
      assert EncodeAll(cs)[|Encode(cs[0])|..] == rest;
    }
  }

  /** Different texts have different encodings. */
  lemma {:induction false} EncodingIsInjective(a: seq<nat>, b: seq<nat>)
    requires Scalars(a) && Scalars(b) && EncodeAll(a) == EncodeAll(b)
    ensures a == b
  {
    if a != [] && b != [] {
      EncodeIsCharacter(a[0], EncodeAll(a[1..]));
      EncodeIsCharacter(b[0], EncodeAll(b[1..]));
      var n := CharLength(EncodeAll(a));
      assert Encode(a[0]) == EncodeAll(a)[..n] == Encode(b[0]);
      EncodeIsInjective(a[0], b[0]);
      assert EncodeAll(a[1..]) == EncodeAll(a)[n..] == EncodeAll(b[1..]);
      EncodingIsInjective(a[1..], b[1..]);
    }
  }

  lemma EncodeIsInjective(c: nat, d: nat)
    requires Scalar(c) && Scalar(d) && Encode(c) == Encode(d)
    ensures c == d
  {
    EncodeDecodes(c);
    EncodeDecodes(d);
  }
}
