/**
 write_json_string of src/vkexec_profiling/chrome_trace.cpp, against a reader
 for the strings of section 7 of RFC 8259.
 */
module JsonString {
  import opened Optional
  import opened Utf8

  const QUOTE: Byte := 0x22
  const BACKSLASH: Byte := 0x5C
  const CONTROL_LIMIT: Byte := 0x20
  const HEX_DIGITS: Bytes := [0x30, 0x31, 0x32, 0x33, 0x34, 0x35, 0x36, 0x37, 0x38, 0x39, 0x61, 0x62, 0x63, 0x64, 0x65, 0x66]

  // ------------------------------------------------------------- writing

  /** What one byte of a name becomes. */
  function Escape(b: Byte): Bytes {
    if b == QUOTE || b == BACKSLASH then [BACKSLASH, b]
    else if b == 0x08 then [BACKSLASH, 0x62]
    else if b == 0x0C then [BACKSLASH, 0x66]
    else if b == 0x0A then [BACKSLASH, 0x6E]
    else if b == 0x0D then [BACKSLASH, 0x72]
    else if b == 0x09 then [BACKSLASH, 0x74]
    else if b < CONTROL_LIMIT then [BACKSLASH, 0x75, 0x30, 0x30, HEX_DIGITS[b / 16], HEX_DIGITS[b % 16]]
    else [b]
  }

  function EscapeAll(s: Bytes): Bytes {
    if s == [] then [] else Escape(s[0]) + EscapeAll(s[1..])
  }

  function Quoted(s: Bytes): Bytes {
    [QUOTE] + EscapeAll(s) + [QUOTE]
  }

  lemma {:induction false} EscapeLast(s: Bytes, b: Byte)
    ensures EscapeAll(s + [b]) == EscapeAll(s) + Escape(b)
  {
    hide Escape;
    if s == [] {
      assert [b][1..] == [];
    } else {
      EscapeLast(s[1..], b);
      assert (s + [b])[1..] == s[1..] + [b];
    }
  }

  /** The switch of the writer, one byte at a time. */
  method PutEscaped(output: Bytes, byte: Byte) returns (r: Bytes)
    ensures r == output + Escape(byte)
  {
    if byte == QUOTE { r := output + [BACKSLASH, QUOTE]; }
    else if byte == BACKSLASH { r := output + [BACKSLASH, BACKSLASH]; }
    else if byte == 0x08 { r := output + [BACKSLASH, 0x62]; }
    else if byte == 0x0C { r := output + [BACKSLASH, 0x66]; }
    else if byte == 0x0A { r := output + [BACKSLASH, 0x6E]; }
    else if byte == 0x0D { r := output + [BACKSLASH, 0x72]; }
    else if byte == 0x09 { r := output + [BACKSLASH, 0x74]; }
    else if byte < CONTROL_LIMIT { r := output + [BACKSLASH, 0x75, 0x30, 0x30, HEX_DIGITS[byte / 16], HEX_DIGITS[byte % 16]]; }
    else { r := output + [byte]; }
  }

  method WriteJsonString(output: Bytes, value: Bytes) returns (r: Bytes)
    ensures r == output + Quoted(value)
  {
    hide Escape;
    r := output + [QUOTE];
    for i := 0 to |value|
      invariant r == output + [QUOTE] + EscapeAll(value[..i])
    {
      hide EscapeAll;
      EscapeLast(value[..i], value[i]);
      assert value[..i + 1] == value[..i] + [value[i]];
      r := PutEscaped(r, value[i]);
    }
    assert value[..|value|] == value;
    r := r + [QUOTE];
  }

  // ------------------------------------------------------------- reading

  function HexValue(b: Byte): Option<nat> {
    if 0x30 <= b <= 0x39 then Some((b - 0x30) as nat)
    else if 0x41 <= b <= 0x46 then Some((b - 0x41) as nat + 10)
    else if 0x61 <= b <= 0x66 then Some((b - 0x61) as nat + 10)
    else None
  }

  /** The 16-bit code unit of four hexadecimal digits. */
  function CodeUnit(s: Bytes): Option<nat> {
    if |s| < 4 then None
    else match (HexValue(s[0]), HexValue(s[1]), HexValue(s[2]), HexValue(s[3]))
      case (Some(a), Some(b), Some(c), Some(d)) => Some(((a * 16 + b) * 16 + c) * 16 + d)
      case _ => None
  }

  /** What a two-character escape stands for. */
  function Simple(b: Byte): Option<Byte> {
    if b == QUOTE || b == BACKSLASH || b == 0x2F then Some(b)
    else if b == 0x62 then Some(0x08)
    else if b == 0x66 then Some(0x0C)
    else if b == 0x6E then Some(0x0A)
    else if b == 0x72 then Some(0x0D)
    else if b == 0x74 then Some(0x09)
    else None
  }

  datatype Read = Read(value: Bytes, rest: Bytes)

  function Prepend(b: Bytes, r: Option<Read>): Option<Read> {
    match r
    case None => None
    case Some(Read(value, rest)) => Some(Read(b + value, rest))
  }

  /** The escape after a reverse solidus: what it stands for, and what follows. Code points become UTF-8; surrogates come in pairs. */
  function ReadEscape(s: Bytes): (r: Option<Read>)
    ensures r.Some? ==> |r.value.rest| < |s|
  {
    if s == [] then None
    else if Simple(s[0]).Some? then Some(Read([Simple(s[0]).value], s[1..]))
    else if s[0] != 0x75 || CodeUnit(s[1..]).None? then None
    else
      var unit := CodeUnit(s[1..]).value;
      if Scalar(unit) then Some(Read(Encode(unit), s[5..]))
      else if unit < 0xDC00 && |s| >= 11 && s[5] == BACKSLASH && s[6] == 0x75 && CodeUnit(s[7..]).Some? then
        var low := CodeUnit(s[7..]).value;
        if 0xDC00 <= low < 0xE000 then Some(Read(Encode(0x10000 + (unit - 0xD800) * 0x400 + (low - 0xDC00)), s[11..])) else None
      else None
  }

  /** The rest of a string after its opening quotation mark: control characters must be escaped. */
  function ReadChars(s: Bytes): Option<Read>
    decreases |s|
  {
    if s == [] || s[0] < CONTROL_LIMIT then None
    else if s[0] == QUOTE then Some(Read([], s[1..]))
    else if s[0] != BACKSLASH then Prepend([s[0]], ReadChars(s[1..]))
    else
      match ReadEscape(s[1..])
      case None => None
      case Some(Read(value, rest)) => Prepend(value, ReadChars(rest))
  }

  function ReadString(s: Bytes): Option<Read> {
    if s == [] || s[0] != QUOTE then None else ReadChars(s[1..])
  }

  // -------------------------------------------------------- what holds

  lemma HexRoundTrip(n: nat)
    requires n < 16
    ensures HexValue(HEX_DIGITS[n]) == Some(n)
  {
  }

  lemma ReadControl(b: Byte, s: Bytes, rest: Bytes)
    requires b < CONTROL_LIMIT && s == [0x75, 0x30, 0x30, HEX_DIGITS[b / 16], HEX_DIGITS[b % 16]] + rest
    ensures ReadEscape(s) == Some(Read([b], rest))
  {
    HexRoundTrip(b as nat / 16);
    HexRoundTrip(b as nat % 16);
    hide HexValue;
    assert HexValue(0x30) == Some(0) by { HexRoundTrip(0); }
    assert s[1..][..4] == [0x30, 0x30, HEX_DIGITS[b / 16], HEX_DIGITS[b % 16]];
    assert CodeUnit(s[1..]) == Some(b as nat);
    assert s[5..] == rest;
  }

  /** Reading an escaped byte gives the byte back and stops where the escape stops. */
  lemma ReadEscaped(b: Byte, rest: Bytes)
    ensures ReadChars(Escape(b) + rest) == Prepend([b], ReadChars(rest))
  {
    var s := Escape(b) + rest;
    if s[0] == BACKSLASH {
      assert s[1..][1..] == s[2..];
      if s[1] == 0x75 {
        ReadControl(b, s[1..], rest);
      } else {
        assert s[2..] == rest;
      }
    } else {
      assert s[1..] == rest;
    }
  }

  lemma {:induction false} ReadAllEscaped(s: Bytes, rest: Bytes)
    ensures ReadChars(EscapeAll(s) + [QUOTE] + rest) == Some(Read(s, rest))
  {
    if s == [] {
      assert EscapeAll(s) + [QUOTE] + rest == [QUOTE] + rest;
    } else {
      var tail := EscapeAll(s[1..]) + [QUOTE] + rest;
      assert EscapeAll(s) + [QUOTE] + rest == Escape(s[0]) + tail;
      ReadEscaped(s[0], tail);
      ReadAllEscaped(s[1..], rest);
      assert [s[0]] + s[1..] == s;
    }
  }

  /** Every byte string is read back exactly, whatever follows it: no inner quotation mark ends it early. */
  lemma RoundTrip(s: Bytes, rest: Bytes)
    ensures ReadString(Quoted(s) + rest) == Some(Read(s, rest))
  {
    hide ReadChars, EscapeAll;
    ReadAllEscaped(s, rest);
    assert (Quoted(s) + rest)[1..] == EscapeAll(s) + [QUOTE] + rest;
  }

  predicate NoControls(s: Bytes) {
    forall i | 0 <= i < |s| :: s[i] >= CONTROL_LIMIT
  }

  lemma EscapeHasNoControls(b: Byte)
    ensures NoControls(Escape(b))
  {
    assert forall n | 0 <= n < 16 :: HEX_DIGITS[n] >= CONTROL_LIMIT;
  }

  /** No raw control byte is written. */
  lemma {:induction false} NoControlBytes(s: Bytes)
    ensures NoControls(Quoted(s))
  {
    if s == [] {
      assert Quoted(s) == [QUOTE, QUOTE];
    } else {
      EscapeHasNoControls(s[0]);
      NoControlBytes(s[1..]);
      hide Escape;
      assert EscapeAll(s) == Escape(s[0]) + EscapeAll(s[1..]);
      assert Quoted(s[1..])[1..] == EscapeAll(s[1..]) + [QUOTE];
      assert Quoted(s) == [QUOTE] + Escape(s[0]) + Quoted(s[1..])[1..];
    }
  }

  // ------------------------------------------------------ UTF-8 is kept

  predicate Ascii(s: Bytes) {
    forall i | 0 <= i < |s| :: s[i] <= 0x7F
  }

  lemma {:induction false} AsciiIsSkipped(a: Bytes, rest: Bytes)
    requires Ascii(a)
    ensures Accepts(a + rest, START) <==> Accepts(rest, START)
  {
    if a == [] {
      assert a + rest == rest;
    } else {
      AsciiIsSkipped(a[1..], rest);
      assert (a + rest)[1..] == a[1..] + rest;
    }
  }

  lemma EscapeIsAscii(b: Byte)
    ensures Escape(b) != [] && if b <= 0x7F then Ascii(Escape(b)) else Escape(b) == [b]
  {
    assert forall n | 0 <= n < 16 :: HEX_DIGITS[n] <= 0x7F;
  }

  /** Escapes touch no byte of a longer character, and stop one just as the byte they replace does. */
  lemma {:induction false} EscapingKeepsAcceptance(s: Bytes, e: Expect)
    requires e.remaining == 0 ==> e == START
    requires CONTINUATION_MIN <= e.lower
    ensures Accepts(EscapeAll(s) + [QUOTE], e) <==> Accepts(s, e)
  {
    if s == [] {
      assert EscapeAll(s) + [QUOTE] == [QUOTE];
      assert [QUOTE][1..] == [];
    } else {
      EscapeIsAscii(s[0]);
      hide Escape, ClassifyLead;
      var b, tail := s[0], EscapeAll(s[1..]) + [QUOTE];
      var all := EscapeAll(s) + [QUOTE];
      assert all == Escape(b) + tail;
      if b <= 0x7F {
        if e.remaining == 0 {
          AsciiIsSkipped(Escape(b), tail);
          EscapingKeepsAcceptance(s[1..], e);
        } else {
          assert all[0] <= 0x7F;
        }
      } else {
        assert all[0] == b && all[1..] == tail;
        if Step(e, b).Some? {
          EscapingKeepsAcceptance(s[1..], Step(e, b).value);
        }
      }
    }
  }

  /** Quoting a name gives UTF-8 exactly when the name is UTF-8. */
  lemma QuotingKeepsUtf8(s: Bytes)
    ensures IsUtf8(Quoted(s)) <==> IsUtf8(s)
  {
    AcceptsIsUtf8(s);
    AcceptsIsUtf8(Quoted(s));
    EscapingKeepsAcceptance(s, START);
    AsciiIsSkipped([QUOTE], EscapeAll(s) + [QUOTE]);
    assert Quoted(s) == [QUOTE] + (EscapeAll(s) + [QUOTE]);
  }
}
