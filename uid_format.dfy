/**
 * The card-identifier formatter `dump_byte_array`: every byte of the UID becomes
 * a space followed by two hexadecimal digits, and the whole text is upper-cased.
 * [0x04, 0xA2, 0x3B, 0x9C] becomes " 04 A2 3B 9C" (note the leading space).
 */
module UidFormat {
  import opened Wrappers

  /** An unsigned 8-bit value, the device's `byte`. */
  type byte = x: int | 0 <= x < 256

  /** The characters the formatter may emit: the separator and upper-case hex digits. */
  predicate IsUidChar(c: char) {
    c == ' ' || '0' <= c <= '9' || 'A' <= c <= 'F'
  }

  predicate IsLowerHexDigit(c: char) {
    '0' <= c <= '9' || 'a' <= c <= 'f'
  }

  predicate IsUpperHexDigit(c: char) {
    '0' <= c <= '9' || 'A' <= c <= 'F'
  }

  /** Digit `d` as `String(value, HEX)` writes it: letters in lower case. */
  function LowerHexDigit(d: int): (c: char)
    requires 0 <= d < 16
    ensures IsLowerHexDigit(c)
  {
    if d < 10 then ('0' as int + d) as char else ('a' as int + d - 10) as char
  }

  /** Digit `d` as it appears in the formatter's (upper-cased) output. */
  function UpperHexDigit(d: int): (c: char)
    requires 0 <= d < 16
    ensures IsUpperHexDigit(c)
  {
    if d < 10 then ('0' as int + d) as char else ('A' as int + d - 10) as char
  }

  /** The value of an upper-case hexadecimal digit. */
  function HexValue(c: char): (v: int)
    requires IsUpperHexDigit(c)
    ensures 0 <= v < 16
  {
    if c <= '9' then c as int - '0' as int else c as int - 'A' as int + 10
  }

  /** `String(b, HEX)`: base 16, lower case, no leading zero. */
  function ArduinoHex(b: byte): (s: string)
    ensures |s| == if b < 0x10 then 1 else 2
    ensures forall i :: 0 <= i < |s| ==> IsLowerHexDigit(s[i])
    ensures b >= 0x10 ==> s[0] != '0'
  {
    if b < 16 then [LowerHexDigit(b)] else [LowerHexDigit(b / 16), LowerHexDigit(b % 16)]
  }

  /** What one iteration of the loop appends for byte `b`, before upper-casing. */
  function RawGroup(b: byte): (s: string)
    ensures |s| == 3 && s[0] == ' ' && IsLowerHexDigit(s[1]) && IsLowerHexDigit(s[2])
  {
    (if b < 0x10 then " 0" else " ") + ArduinoHex(b)
  }

  /** `content` once the loop has consumed `bytes`, before `toUpperCase`. */
  function Raw(bytes: seq<byte>): (r: string)
    ensures |r| == 3 * |bytes|
    ensures forall i :: 0 <= i < |r| ==> r[i] == ' ' || IsLowerHexDigit(r[i])
  {
    if bytes == [] then "" else Raw(bytes[..|bytes| - 1]) + RawGroup(bytes[|bytes| - 1])
  }

  /** `toupper` of the C library on one character: only 'a'..'z' change. */
  function UpperChar(c: char): char {
    if 'a' <= c <= 'z' then (c as int - 32) as char else c
  }

  /** `String::toUpperCase`: every character upper-cased, nothing else changed. */
  function ToUpper(s: string): (r: string)
    ensures |r| == |s|
    ensures forall i :: 0 <= i < |s| ==> r[i] == UpperChar(s[i])
  {
    if s == [] then [] else [UpperChar(s[0])] + ToUpper(s[1..])
  }

  /**
   * The formatter's result for `uid`: three characters per byte, each one a
   * space or an upper-case hexadecimal digit; the empty UID gives "".
   */
  function Dump(uid: seq<byte>): (r: string)
    ensures |r| == 3 * |uid|
    ensures forall i :: 0 <= i < |r| ==> IsUidChar(r[i])
  {
    ToUpper(Raw(uid))
  }

  /** The three characters that stand for `b` in the output. */
  function Group(b: byte): string {
    [' ', UpperHexDigit(b / 16), UpperHexDigit(b % 16)]
  }

  /** The three characters of `s` that stand for byte number `i`. */
  function GroupAt(s: string, i: nat): string
    requires 3 * i + 3 <= |s|
  {
    s[3 * i..3 * i + 3]
  }

  /**
   * Reads a formatted UID back: consecutive groups of a space and two
   * upper-case hex digits, high digit first. Anything else is rejected.
   */
  function Parse(s: string): Option<seq<byte>>
    decreases |s|
  {
    if s == [] then Some([])
    else if |s| < 3 then None
    else
      var n := |s|;
      if s[n - 3] == ' ' && IsUpperHexDigit(s[n - 2]) && IsUpperHexDigit(s[n - 1]) then
        match Parse(s[..n - 3])
        case None => None
        case Some(bytes) => Some(bytes + [HexValue(s[n - 2]) * 16 + HexValue(s[n - 1])])
      else None
  }

  /** Upper-casing one loop iteration's text gives exactly the group of `b`. */
  lemma UpperRawGroup(b: byte)
    ensures ToUpper(RawGroup(b)) == Group(b)
  {
    var hi, lo := b / 16, b % 16;
    assert UpperChar(LowerHexDigit(hi)) == UpperHexDigit(hi);
    assert UpperChar(LowerHexDigit(lo)) == UpperHexDigit(lo);
    if b < 16 {
      assert hi == 0 && lo == b;
    }
  }

  lemma ToUpperAppend(a: string, b: string)
    ensures ToUpper(a + b) == ToUpper(a) + ToUpper(b)
  {
    assert forall i :: 0 <= i < |a + b| ==> ToUpper(a + b)[i] == (ToUpper(a) + ToUpper(b))[i];
  }

  /** Appending a byte to the UID appends its group to the output. */
  lemma DumpSnoc(uid: seq<byte>, b: byte)
    ensures Dump(uid + [b]) == Dump(uid) + Group(b)
  {
    var u := uid + [b];
    assert u[..|u| - 1] == uid;
    ToUpperAppend(Raw(uid), RawGroup(b));
    UpperRawGroup(b);
  }

  /**
   * Group `i` of the output is a space followed by the two digits of byte `i`,
   * the high one zero-padded: the output is the bytes' groups, in order.
   */
  lemma {:induction false} DumpGroups(uid: seq<byte>)
    ensures forall i :: 0 <= i < |uid| ==> GroupAt(Dump(uid), i) == Group(uid[i])
  {
    if uid != [] {
      var n := |uid| - 1;
      var init := uid[..n];
      assert uid == init + [uid[n]];
      DumpGroups(init);
      DumpSnoc(init, uid[n]);
      forall i | 0 <= i < |uid|
        ensures GroupAt(Dump(uid), i) == Group(uid[i])
      {
        if i < n {
          assert GroupAt(Dump(uid), i) == GroupAt(Dump(init), i);
        }
      }
    }
  }

  /** Upper-casing the output again changes nothing. */
  lemma DumpUpperIdempotent(uid: seq<byte>)
    ensures ToUpper(Dump(uid)) == Dump(uid)
  {
    var s := Dump(uid);
    forall i | 0 <= i < |s|
      ensures ToUpper(s)[i] == s[i]
    {
      assert IsUidChar(s[i]);
    }
  }

  lemma HexValueOfDigit(d: int)
    requires 0 <= d < 16
    ensures HexValue(UpperHexDigit(d)) == d
  {
  }

  /** Reading one more group decodes one more byte. */
  lemma ParseAppendGroup(t: string, b: byte)
    ensures Parse(t + Group(b)) == match Parse(t)
                                   case None => None
                                   case Some(bytes) => Some(bytes + [b])
  {
    var s := t + Group(b);
    var n := |s|;
    assert s[..n - 3] == t;
    assert s[n - 3] == ' ' && s[n - 2] == UpperHexDigit(b / 16) && s[n - 1] == UpperHexDigit(b % 16);
    HexValueOfDigit(b / 16);
    HexValueOfDigit(b % 16);
  }

  /** Reading the output back recovers the UID, byte for byte. */
  lemma {:induction false} ParseDump(uid: seq<byte>)
    ensures Parse(Dump(uid)) == Some(uid)
  {
    if uid != [] {
      var n := |uid| - 1;
      var init, b := uid[..n], uid[n];
      assert uid == init + [b];
      DumpSnoc(init, b);
      ParseDump(init);
      ParseAppendGroup(Dump(init), b);
    }
  }

  /** Distinct UIDs give distinct texts (the same UID always gives the same text). */
  lemma DumpInjective(a: seq<byte>, b: seq<byte>)
    ensures Dump(a) == Dump(b) <==> a == b
  {
    if Dump(a) == Dump(b) {
      ParseDump(a);
      ParseDump(b);
    }
  }

  /**
   * `dump_byte_array`: a loop that appends one group per byte, followed by
   * `toUpperCase`. The length is a `byte`, hence at most 255.
   */
  method DumpByteArray(buffer: seq<byte>) returns (content: string)
    requires |buffer| < 256
    ensures content == Dump(buffer)
  {
    content := "";
    for i := 0 to |buffer|
      invariant content == Raw(buffer[..i])
    {
      assert buffer[..i + 1][..i] == buffer[..i];
      content := content + (if buffer[i] < 0x10 then " 0" else " ");
      content := content + ArduinoHex(buffer[i]);
    }
    assert buffer[..|buffer|] == buffer;
    content := ToUpper(content);
  }
}
