/** Browser profile text identity: 16-bit code units as unpadded base64url
    (src/avp_ref/tck_adapter/browser_harness.py). */
module DomString {
  import opened Common
  import opened Base64

  type CodeUnit = u: int | 0 <= u < 0x1_0000

  datatype DomStringError = UnitOutOfRange(unit: int) | Padded | ForeignCharacter | BadLength | HalfUnit | LooseBits

  /** Big-endian octets of a unit list. */
  function OctetsOf(units: seq<CodeUnit>): (b: Octets)
    ensures |b| == 2 * |units|
  {
    seq(2 * |units|, i requires 0 <= i < 2 * |units| =>
      if i % 2 == 0 then units[i / 2] / 256 else units[i / 2] % 256)
  }

  function UnitsOf(b: Octets): (units: seq<CodeUnit>)
    ensures |units| == |b| / 2
  {
    seq(|b| / 2, i requires 0 <= i < |b| / 2 => b[2 * i] as int * 256 + b[2 * i + 1] as int)
  }

  lemma {:induction false} UnitsRoundTrip(units: seq<CodeUnit>, b: Octets)
    ensures UnitsOf(OctetsOf(units)) == units
    ensures |b| % 2 == 0 ==> OctetsOf(UnitsOf(b)) == b
  {
    forall i | 0 <= i < |units| ensures UnitsOf(OctetsOf(units))[i] == units[i] {
      assert OctetsOf(units)[2 * i] == units[i] / 256;
      assert OctetsOf(units)[2 * i + 1] == units[i] % 256;
    }
    if |b| % 2 == 0 {
      forall i | 0 <= i < |b| ensures OctetsOf(UnitsOf(b))[i] == b[i] {
        assert UnitsOf(b)[i / 2] == b[2 * (i / 2)] as int * 256 + b[2 * (i / 2) + 1] as int;
      }
    }
  }

  /** The text form of a unit list. */
  function EncodeUnits(units: seq<CodeUnit>): Text {
    StripPads(Base64.Encode(UrlSafe, OctetsOf(units)))
  }

  predicate IsUnit(value: int) {
    0 <= value < 0x1_0000
  }

  predicate FirstBadUnit(values: seq<int>, i: nat) {
    i < |values| && !IsUnit(values[i]) && forall j :: 0 <= j < i ==> IsUnit(values[j])
  }

  /** `encode_dom_string_code_units`: rejects the first value that is not a 16-bit unit. */
  method EncodeCodeUnits(values: seq<int>) returns (r: Result<Text, DomStringError>)
    ensures r.Ok? <==> forall i :: 0 <= i < |values| ==> IsUnit(values[i])
    ensures r.Ok? ==> r.value == EncodeUnits(values)
    ensures r.Err? ==> exists i :: 0 <= i < |values| && FirstBadUnit(values, i) && r.error == UnitOutOfRange(values[i])
  {
    var raw: Octets := [];
    ghost var units: seq<CodeUnit> := [];
    for n := 0 to |values|
      invariant forall i :: 0 <= i < n ==> IsUnit(values[i])
      invariant units == values[..n] && raw == OctetsOf(units)
    {
      var unit := values[n];
      if unit < 0 || unit > 0xFFFF {
        assert FirstBadUnit(values, n);
        return Err(UnitOutOfRange(unit));
      }
      raw := raw + [unit / 256, unit % 256];
      units := units + [unit];
      assert raw == OctetsOf(units);
    }
    assert units == values;
    r := Ok(StripPads(Base64.Encode(UrlSafe, raw)));
  }

  /** `decode_dom_string_code_units`, with its checks in their order. */
  function DecodeCodeUnits(s: Text): Result<seq<CodeUnit>, DomStringError> {
    if PAD in s then Err(Padded)
    else if !InAlphabet(UrlSafe, s) then Err(ForeignCharacter)
    else if |s| % 4 == 1 then Err(BadLength)
    else
      var raw := Unpack(Sextets(UrlSafe, s));
      if |raw| % 2 != 0 then Err(HalfUnit)
      else if StripPads(Base64.Encode(UrlSafe, raw)) != s then Err(LooseBits)
      else Ok(UnitsOf(raw))
  }

  /** Canonical unpadded base64url: alphabet, no group of one, zero pad bits. */
  predicate CanonicalBase64Url(s: Text) {
    InAlphabet(UrlSafe, s) && Tight(Sextets(UrlSafe, s))
  }

  /** Re-encoding the decoded octets reproduces the text exactly when it is canonical. */
  lemma {:induction false} ReencodeIffCanonical(s: Text)
    requires InAlphabet(UrlSafe, s)
    ensures StripPads(Base64.Encode(UrlSafe, Unpack(Sextets(UrlSafe, s)))) == s <==> CanonicalBase64Url(s)
  {
    var v := Sextets(UrlSafe, s);
    StripEncode(UrlSafe, Unpack(v));
    PackUnpack(v);
    CharsAreSextets(UrlSafe, Pack(Unpack(v)), s);
  }

  /** Any unit list survives encoding and decoding; unpaired surrogates are not special. */
  lemma {:induction false} DecodeEncoded(units: seq<CodeUnit>)
    ensures DecodeCodeUnits(EncodeUnits(units)) == Ok(units)
  {
    var b := OctetsOf(units);
    var s := EncodeUnits(units);
    StripEncode(UrlSafe, b);
    CharsAreSextets(UrlSafe, Pack(b), s);
    UnpackPack(b);
    PackTight(b);
    ReencodeIffCanonical(s);
    UnitsRoundTrip(units, []);
  }

  /** Every accepted text is the encoding of what it decodes to: one text per value. */
  lemma {:induction false} EncodeDecoded(s: Text)
    requires DecodeCodeUnits(s).Ok?
    ensures EncodeUnits(DecodeCodeUnits(s).value) == s
  {
    UnitsRoundTrip([], Unpack(Sextets(UrlSafe, s)));
  }

  /** The accepted language: canonical base64url whose length stands for whole units. */
  lemma {:induction false} AcceptedExactly(s: Text)
    ensures DecodeCodeUnits(s).Ok? <==> CanonicalBase64Url(s) && |s| * 3 / 4 % 2 == 0
  {
    if InAlphabet(UrlSafe, s) {
      assert forall i :: 0 <= i < |s| ==> ValueOf(UrlSafe, s[i]) != None;
      ReencodeIffCanonical(s);
      UnpackSize(Sextets(UrlSafe, s));
    }
  }
}

/** `_validate_binary` of the relational profile (src/avp_ref/relational.py): the same
    language reached through a lenient decoder and a comparison. */
module BinaryValue {
  import opened Common
  import opened Base64
  import DomString

  datatype BinaryError = PaddingPresent | Undecodable | NonCanonical

  /** `urlsafe_b64decode` translates the two url-safe characters before decoding. */
  function Translate(c: CodePoint): CodePoint {
    if c == 45 then 43 else if c == 95 then 47 else c
  }

  /** The sextets a lenient decoder keeps; every other character is skipped. */
  function Kept(s: Text): seq<Sextet> {
    if |s| == 0 then []
    else
      var rest := Kept(s[..|s| - 1]);
      match ValueOf(Standard, Translate(s[|s| - 1]))
      case Some(v) => rest + [v]
      case None => rest
  }

  /** `urlsafe_b64decode(s + "=" * pads)` for an `s` without `=`: not ASCII, a lone last
      character, or too little padding for the last group fail. */
  function LenientDecode(s: Text, pads: nat): Option<Octets> {
    var kept := Kept(s);
    if exists i :: 0 <= i < |s| && s[i] >= 128 then None
    else if |kept| % 4 == 1 then None
    else if |kept| % 4 != 0 && |kept| % 4 + pads < 4 then None
    else Some(Unpack(kept))
  }

  function Validate(s: Text): Result<Octets, BinaryError> {
    if PAD in s then Err(PaddingPresent)
    else
      match LenientDecode(s, PadCount(|s|))
      case None => Err(Undecodable)
      case Some(b) => if StripPads(Base64.Encode(UrlSafe, b)) != s then Err(NonCanonical) else Ok(b)
  }

  lemma {:induction false} KeptOfCanonical(s: Text)
    requires InAlphabet(UrlSafe, s)
    ensures Kept(s) == Sextets(UrlSafe, s)
  {
    if |s| != 0 {
      var front := s[..|s| - 1];
      KeptOfCanonical(front);
      assert ValueOf(UrlSafe, s[|s| - 1]) == ValueOf(Standard, Translate(s[|s| - 1]));
      assert Sextets(UrlSafe, s) == Sextets(UrlSafe, front) + [Sextets(UrlSafe, s)[|s| - 1]];
    }
  }

  lemma {:induction false} AlphabetIsAscii(s: Text)
    requires InAlphabet(UrlSafe, s)
    ensures PAD !in s && !exists i :: 0 <= i < |s| && s[i] >= 128
  {
    assert forall i :: 0 <= i < |s| ==> ValueOf(UrlSafe, s[i]).Some?;
  }

  lemma {:induction false} LenientOnCanonical(s: Text)
    requires DomString.CanonicalBase64Url(s)
    ensures LenientDecode(s, PadCount(|s|)) == Some(Unpack(Sextets(UrlSafe, s)))
  {
    AlphabetIsAscii(s);
    KeptOfCanonical(s);
  }

  lemma {:induction false} CanonicalAccepted(s: Text)
    requires DomString.CanonicalBase64Url(s)
    ensures Validate(s) == Ok(Unpack(Sextets(UrlSafe, s)))
  {
    AlphabetIsAscii(s);
    LenientOnCanonical(s);
    DomString.ReencodeIffCanonical(s);
  }

  /** The lenient route accepts exactly the canonical texts, although its decoder skips
      foreign characters and also takes `+` and `/`. */
  lemma {:induction false} SameLanguage(s: Text)
    ensures Validate(s).Ok? <==> DomString.CanonicalBase64Url(s)
  {
    if Validate(s).Ok? {
      var b := Validate(s).value;
      StripEncode(UrlSafe, b);
      CharsAreSextets(UrlSafe, Pack(b), []);
      PackTight(b);
    }
    if DomString.CanonicalBase64Url(s) {
      CanonicalAccepted(s);
    }
  }

  /** A browser text is a relational binary text of even length, decoding to the same octets. */
  lemma {:induction false} DomStringsAreEvenBinaries(s: Text)
    ensures DomString.DecodeCodeUnits(s).Ok? <==> Validate(s).Ok? && |Validate(s).value| % 2 == 0
    ensures DomString.DecodeCodeUnits(s).Ok? ==>
      DomString.OctetsOf(DomString.DecodeCodeUnits(s).value) == Validate(s).value
  {
    SameLanguage(s);
    DomString.AcceptedExactly(s);
    if Validate(s).Ok? {
      KeptOfCanonical(s);
      UnpackSize(Sextets(UrlSafe, s));
      DomString.UnitsRoundTrip([], Validate(s).value);
    }
  }
}
