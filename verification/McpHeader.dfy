/** Mirrored MCP header values (`encode_mcp_header_value`, src/avp_ref/mcp/transport.py). */
module McpHeader {
  import opened Common
  import opened Base64
  import Utf8

  const PREFIX: Text := [61, 63, 98, 97, 115, 101, 54, 52, 63] // =?base64?
  const SUFFIX: Text := [63, 61]                               // ?=

  /** Both ends of the sentinel; they may overlap, as in `=?base64?=`. */
  predicate SentinelShaped(s: Text) {
    StartsWith(s, PREFIX) && EndsWith(s, SUFFIX)
  }

  predicate IsBlank(c: CodePoint) {
    c == 32 || c == 9
  }

  predicate HasEdgeWhitespace(s: Text) {
    |s| != 0 && (IsBlank(s[0]) || IsBlank(s[|s| - 1]))
  }

  predicate FieldSafe(s: Text) {
    forall i :: 0 <= i < |s| ==> s[i] == 9 || 0x20 <= s[i] <= 0x7E
  }

  predicate SentAsIs(value: Text) {
    FieldSafe(value) && !HasEdgeWhitespace(value) && !SentinelShaped(value)
  }

  /** The header value, or None where UTF-8 encoding raises on a surrogate. */
  function EncodeHeader(value: Text): Option<Text> {
    if SentAsIs(value) then Some(value)
    else if !IsScalarText(value) then None
    else Some(PREFIX + Base64.Encode(Standard, Utf8.Encode(value)) + SUFFIX)
  }

  /** The receiver: undo the sentinel form, take anything else literally. */
  function DecodeHeader(s: Text): Option<Text> {
    if !SentinelShaped(s) then Some(s)
    else if |s| < |PREFIX| + |SUFFIX| then None
    else
      var chars := StripPads(s[|PREFIX|..|s| - |SUFFIX|]);
      if !InAlphabet(Standard, chars) then None else Utf8.Decode(Unpack(Sextets(Standard, chars)))
  }

  lemma {:induction false} SentinelForm(value: Text)
    requires IsScalarText(value) && !SentAsIs(value)
    ensures var out := EncodeHeader(value).value;
      && SentinelShaped(out)
      && |out| >= |PREFIX| + |SUFFIX|
      && out[|PREFIX|..|out| - |SUFFIX|] == Base64.Encode(Standard, Utf8.Encode(value))
  {
  }

  /** Encoding fails exactly on texts with a surrogate. */
  lemma {:induction false} EncodableIffScalar(value: Text)
    ensures EncodeHeader(value).Some? <==> IsScalarText(value)
  {
    if SentAsIs(value) {
      assert forall i :: 0 <= i < |value| ==> value[i] <= 0x7E;
    }
  }

  /** What is sent is a legal field value without edge blanks, and its shape tells how to
      read it: sentinel-shaped exactly when it was encoded. */
  lemma {:induction false} OutputIsLegal(value: Text)
    requires IsScalarText(value)
    ensures var out := EncodeHeader(value).value;
      FieldSafe(out) && !HasEdgeWhitespace(out) && (SentinelShaped(out) <==> !SentAsIs(value))
  {
    if !SentAsIs(value) {
      SentinelForm(value);
      var out := EncodeHeader(value).value;
      var b := Utf8.Encode(value);
      var body := Base64.Encode(Standard, b);
      forall i | 0 <= i < |body| ensures 0x20 <= body[i] <= 0x7E {
        var chars := Chars(Standard, Pack(b));
        if i < |chars| {
          assert body[i] == CharOf(Standard, Pack(b)[i]);
        } else {
          assert body[i] == PAD;
        }
      }
      assert out == PREFIX + body + SUFFIX;
      assert out[0] == 61 && out[|out| - 1] == 61;
    }
  }

  /** The receiver recovers every value that can be sent. */
  lemma {:induction false} DecoderRecovers(value: Text)
    requires IsScalarText(value)
    ensures DecodeHeader(EncodeHeader(value).value) == Some(value)
  {
    if !SentAsIs(value) {
      SentinelForm(value);
      var b := Utf8.Encode(value);
      StripEncode(Standard, b);
      CharsAreSextets(Standard, Pack(b), []);
      UnpackPack(b);
      Utf8.DecodeEncode(value);
    }
  }

  /** Different values are never mirrored as the same header. */
  lemma {:induction false} EncodingIsInjective(v: Text, w: Text)
    requires IsScalarText(v) && IsScalarText(w)
    ensures EncodeHeader(v) == EncodeHeader(w) ==> v == w
  {
    DecoderRecovers(v);
    DecoderRecovers(w);
  }
}
