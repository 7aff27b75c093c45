/** UTF-8 (section 3 of RFC 3629) for texts without surrogates, with a left inverse. */
module Utf8 {
  import opened Common

  type Scalar = c: CodePoint | !IsSurrogate(c)

  function EncodeScalar(c: Scalar): (b: Octets)
    ensures 1 <= |b| <= 4
  {
    if c < 0x80 then [c]
    else if c < 0x800 then [0xC0 + c / 0x40, 0x80 + c % 0x40]
    else if c < 0x1_0000 then [0xE0 + c / 0x1000, 0x80 + c / 0x40 % 0x40, 0x80 + c % 0x40]
    else [0xF0 + c / 0x4_0000, 0x80 + c / 0x1000 % 0x40, 0x80 + c / 0x40 % 0x40, 0x80 + c % 0x40]
  }

  /** `str.encode("utf-8")`. */
  function Encode(s: Text): Octets
    requires IsScalarText(s)
  {
    if |s| == 0 then [] else EncodeScalar(s[0]) + Encode(s[1..])
  }

  /** How many octets the character introduced by this octet has; 0 for no lead octet. */
  function LeadLength(b: Octet): nat {
    if b < 0x80 then 1 else if b < 0xC0 then 0 else if b < 0xE0 then 2 else if b < 0xF0 then 3 else if b < 0xF8 then 4 else 0
  }

  /** The number spelled by the data bits of one character. */
  function DataBits(b: Octets): int
    requires 1 <= |b| <= 4
  {
    match |b|
    case 1 => b[0]
    case 2 => (b[0] as int - 0xC0) * 0x40 + (b[1] as int - 0x80)
    case 3 => (b[0] as int - 0xE0) * 0x1000 + (b[1] as int - 0x80) * 0x40 + (b[2] as int - 0x80)
    case _ => (b[0] as int - 0xF0) * 0x4_0000 + (b[1] as int - 0x80) * 0x1000 + (b[2] as int - 0x80) * 0x40
              + (b[3] as int - 0x80)
  }

  function Decode(b: Octets): Option<Text> {
    if |b| == 0 then Some([])
    else
      var n := LeadLength(b[0]);
      if n == 0 || n > |b| then None
      else
        var c := DataBits(b[..n]);
        if !(0 <= c < 0x11_0000) then None
        else
          match Decode(b[n..])
          case None => None
          case Some(rest) => Some([c] + rest)
  }

  lemma {:induction false} ScalarRoundTrip(c: Scalar)
    ensures LeadLength(EncodeScalar(c)[0]) == |EncodeScalar(c)|
    ensures DataBits(EncodeScalar(c)) == c
  {
    assert c == c / 0x40 * 0x40 + c % 0x40;
    assert c / 0x40 == c / 0x1000 * 0x40 + c / 0x40 % 0x40;
    assert c / 0x1000 == c / 0x4_0000 * 0x40 + c / 0x1000 % 0x40;
  }

  /** No text is lost in its UTF-8 form. */
  lemma {:induction false} DecodeEncode(s: Text)
    requires IsScalarText(s)
    ensures Decode(Encode(s)) == Some(s)
  {
    if |s| != 0 {
      var head, tail := EncodeScalar(s[0]), Encode(s[1..]);
      ScalarRoundTrip(s[0]);
      DecodeEncode(s[1..]);
      assert (head + tail)[..|head|] == head && (head + tail)[|head|..] == tail;
      assert s == [s[0]] + s[1..];
    }
  }

  lemma {:induction false} EncodeInjective(s: Text, t: Text)
    requires IsScalarText(s) && IsScalarText(t) && Encode(s) == Encode(t)
    ensures s == t
  {
    DecodeEncode(s);
    DecodeEncode(t);
  }
}
