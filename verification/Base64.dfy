/** Octets and base64 characters (sections 3.5, 4 and 5 of RFC 4648), built from div/mod
    arithmetic on octets and sextets. */
module Base64 {
  import opened Common

  type Sextet = v: int | 0 <= v < 64

  datatype Alphabet = Standard | UrlSafe

  const PAD: CodePoint := 61 // '='

  function CharOf(alphabet: Alphabet, v: Sextet): CodePoint {
    if v < 26 then 65 + v
    else if v < 52 then 97 + (v - 26)
    else if v < 62 then 48 + (v - 52)
    else if v == 62 then (if alphabet.Standard? then 43 else 45)
    else (if alphabet.Standard? then 47 else 95)
  }

  function ValueOf(alphabet: Alphabet, c: CodePoint): Option<Sextet> {
    if 65 <= c <= 90 then Some(c - 65)
    else if 97 <= c <= 122 then Some(c - 97 + 26)
    else if 48 <= c <= 57 then Some(c - 48 + 52)
    else if c == (if alphabet.Standard? then 43 else 45) then Some(62)
    else if c == (if alphabet.Standard? then 47 else 95) then Some(63)
    else None
  }

  predicate InAlphabet(alphabet: Alphabet, s: Text) {
    forall i :: 0 <= i < |s| ==> ValueOf(alphabet, s[i]).Some?
  }

  lemma {:induction false} CharRoundTrip(alphabet: Alphabet, v: Sextet, c: CodePoint)
    ensures ValueOf(alphabet, CharOf(alphabet, v)) == Some(v)
    ensures ValueOf(alphabet, c).Some? ==> CharOf(alphabet, ValueOf(alphabet, c).value) == c
    ensures CharOf(alphabet, v) != PAD
  {
  }

  function Chars(alphabet: Alphabet, vs: seq<Sextet>): (s: Text)
    ensures |s| == |vs|
    ensures forall i :: 0 <= i < |vs| ==> s[i] == CharOf(alphabet, vs[i])
  {
    seq(|vs|, i requires 0 <= i < |vs| => CharOf(alphabet, vs[i]))
  }

  function Sextets(alphabet: Alphabet, s: Text): (vs: seq<Sextet>)
    requires InAlphabet(alphabet, s)
    ensures |vs| == |s|
    ensures forall i :: 0 <= i < |s| ==> ValueOf(alphabet, s[i]) == Some(vs[i])
  {
    seq(|s|, i requires 0 <= i < |s| => ValueOf(alphabet, s[i]).value)
  }

  /** The characters and the sextets they stand for determine each other. */
  lemma {:induction false} CharsAreSextets(alphabet: Alphabet, vs: seq<Sextet>, s: Text)
    ensures InAlphabet(alphabet, Chars(alphabet, vs)) && Sextets(alphabet, Chars(alphabet, vs)) == vs
    ensures PAD !in Chars(alphabet, vs)
    ensures InAlphabet(alphabet, s) ==> Chars(alphabet, Sextets(alphabet, s)) == s
  {
    forall i | 0 <= i < |vs| ensures ValueOf(alphabet, Chars(alphabet, vs)[i]) == Some(vs[i]) {
      CharRoundTrip(alphabet, vs[i], 0);
    }
    if InAlphabet(alphabet, s) {
      forall i | 0 <= i < |s| ensures Chars(alphabet, Sextets(alphabet, s))[i] == s[i] {
        CharRoundTrip(alphabet, 0, s[i]);
      }
    }
  }

  // The four sextets of three octets, and the three octets of four sextets.
  function S0(a: Octet): Sextet { a / 4 }
  function S1(a: Octet, b: Octet): Sextet { a % 4 * 16 + b / 16 }
  function S2(b: Octet, c: Octet): Sextet { b % 16 * 4 + c / 64 }
  function S3(c: Octet): Sextet { c % 64 }
  function O0(p: Sextet, q: Sextet): Octet { p as int * 4 + q as int / 16 }
  function O1(q: Sextet, r: Sextet): Octet { q as int % 16 * 16 + r as int / 4 }
  function O2(r: Sextet, s: Sextet): Octet { r as int % 4 * 64 + s as int }

  lemma {:induction false} GroupRoundTrip(a: Octet, b: Octet, c: Octet)
    ensures O0(S0(a), S1(a, b)) == a && O1(S1(a, b), S2(b, c)) == b && O2(S2(b, c), S3(c)) == c
  {
  }

  lemma {:induction false} QuadRoundTrip(p: Sextet, q: Sextet, r: Sextet, s: Sextet)
    ensures S0(O0(p, q)) == p && S1(O0(p, q), O1(q, r)) == q
    ensures S2(O1(q, r), O2(r, s)) == r && S3(O2(r, s)) == s
    ensures S1(O0(p, q), 0) == q - q % 16 && S2(O1(q, r), 0) == r - r % 4
  {
  }

  /** Three octets become four sextets; a short last group is filled with zero bits. */
  function Pack(b: Octets): (vs: seq<Sextet>) {
    if |b| == 0 then []
    else if |b| == 1 then [S0(b[0]), S1(b[0], 0)]
    else if |b| == 2 then [S0(b[0]), S1(b[0], b[1]), S2(b[1], 0)]
    else [S0(b[0]), S1(b[0], b[1]), S2(b[1], b[2]), S3(b[2])] + Pack(b[3..])
  }

  /** Whole octets of a sextet list; left-over bits are dropped. */
  function Unpack(v: seq<Sextet>): Octets {
    if |v| < 2 then []
    else if |v| == 2 then [O0(v[0], v[1])]
    else if |v| == 3 then [O0(v[0], v[1]), O1(v[1], v[2])]
    else [O0(v[0], v[1]), O1(v[1], v[2]), O2(v[2], v[3])] + Unpack(v[4..])
  }

  /** No group of one character, and section 3.5: the bits that carry no data are zero. */
  predicate Tight(v: seq<Sextet>) {
    match |v| % 4
    case 1 => false
    case 2 => v[|v| - 1] % 16 == 0
    case 3 => v[|v| - 1] % 4 == 0
    case _ => true
  }

  lemma {:induction false} UnpackSize(v: seq<Sextet>)
    ensures |Unpack(v)| == |v| * 3 / 4
  {
    if |v| >= 4 {
      UnpackSize(v[4..]);
    }
  }

  lemma {:induction false} UnpackQuad(p: Sextet, q: Sextet, r: Sextet, s: Sextet, rest: seq<Sextet>)
    ensures Unpack([p, q, r, s] + rest) == [O0(p, q), O1(q, r), O2(r, s)] + Unpack(rest)
  {
    assert ([p, q, r, s] + rest)[4..] == rest;
  }

  lemma {:induction false} PackTriple(a: Octet, b: Octet, c: Octet, rest: Octets)
    ensures Pack([a, b, c] + rest) == [S0(a), S1(a, b), S2(b, c), S3(c)] + Pack(rest)
  {
    assert ([a, b, c] + rest)[3..] == rest;
  }

  lemma {:induction false} ShortForms(p: Sextet, q: Sextet, r: Sextet, a: Octet, b: Octet)
    ensures Unpack([]) == [] && Unpack([p]) == []
    ensures Unpack([p, q]) == [O0(p, q)] && Unpack([p, q, r]) == [O0(p, q), O1(q, r)]
    ensures Pack([a]) == [S0(a), S1(a, 0)] && Pack([a, b]) == [S0(a), S1(a, b), S2(b, 0)]
  {
  }

  lemma {:induction false} ShortGroups(a: Octet, b: Octet)
    ensures Unpack(Pack([a])) == [a] && Unpack(Pack([a, b])) == [a, b]
  {
    ShortForms(S0(a), S1(a, 0), 0, a, b);
    GroupRoundTrip(a, 0, 0);
    ShortForms(S0(a), S1(a, b), S2(b, 0), a, b);
    GroupRoundTrip(a, b, 0);
  }

  /** Decoding what was encoded gives the same octets, for every octet string. */
  lemma {:induction false} UnpackPack(b: Octets)
    ensures Unpack(Pack(b)) == b
  {
    if |b| >= 3 {
      assert b == [b[0], b[1], b[2]] + b[3..];
      UnpackPack(b[3..]);
      PackTriple(b[0], b[1], b[2], b[3..]);
      UnpackQuad(S0(b[0]), S1(b[0], b[1]), S2(b[1], b[2]), S3(b[2]), Pack(b[3..]));
      GroupRoundTrip(b[0], b[1], b[2]);
    } else if |b| > 0 {
      ShortGroups(b[0], b[|b| - 1]);
      assert b == if |b| == 1 then [b[0]] else [b[0], b[1]];
    }
  }

  lemma {:induction false} QuadStep(v: seq<Sextet>)
    requires |v| >= 4
    ensures Pack(Unpack(v)) == v[..4] + Pack(Unpack(v[4..]))
  {
    assert v == [v[0], v[1], v[2], v[3]] + v[4..];
    UnpackQuad(v[0], v[1], v[2], v[3], v[4..]);
    PackTriple(O0(v[0], v[1]), O1(v[1], v[2]), O2(v[2], v[3]), Unpack(v[4..]));
    QuadRoundTrip(v[0], v[1], v[2], v[3]);
  }

  lemma {:induction false} TightTail(v: seq<Sextet>)
    requires |v| >= 4
    ensures Tight(v) <==> Tight(v[4..])
  {
  }

  lemma {:induction false} PairTight(p: Sextet, q: Sextet)
    ensures Pack(Unpack([p, q])) == [p, q] <==> q % 16 == 0
  {
    QuadRoundTrip(p, q, 0, 0);
    ShortForms(p, q, 0, O0(p, q), 0);
    assert Pack([O0(p, q)]) == [p, q - q % 16];
  }

  lemma {:induction false} TripleTight(p: Sextet, q: Sextet, r: Sextet)
    ensures Pack(Unpack([p, q, r])) == [p, q, r] <==> r % 4 == 0
  {
    QuadRoundTrip(p, q, r, 0);
    ShortForms(p, q, r, O0(p, q), O1(q, r));
    assert Pack([O0(p, q), O1(q, r)]) == [p, q, r - r % 4];
  }

  lemma {:induction false} NoGroupTight(v: seq<Sextet>)
    requires |v| < 2
    ensures Pack(Unpack(v)) == v <==> Tight(v)
  {
    assert Unpack(v) == [];
  }

  lemma {:induction false} PairGroupTight(v: seq<Sextet>)
    requires |v| == 2
    ensures Pack(Unpack(v)) == v <==> Tight(v)
  {
    assert v == [v[0], v[1]];
    PairTight(v[0], v[1]);
  }

  lemma {:induction false} TripleGroupTight(v: seq<Sextet>)
    requires |v| == 3
    ensures Pack(Unpack(v)) == v <==> Tight(v)
  {
    assert v == [v[0], v[1], v[2]];
    TripleTight(v[0], v[1], v[2]);
  }

  /** Encoding what was decoded gives the sextets back exactly when they were tight. */
  lemma {:induction false} PackUnpack(v: seq<Sextet>)
    ensures Pack(Unpack(v)) == v <==> Tight(v)
  {
    if |v| < 2 {
      NoGroupTight(v);
    } else if |v| == 2 {
      PairGroupTight(v);
    } else if |v| == 3 {
      TripleGroupTight(v);
    } else {
      var rest := Pack(Unpack(v[4..]));
      QuadStep(v);
      TightTail(v);
      PackUnpack(v[4..]);
      assert v == v[..4] + v[4..];
      assert (v[..4] + rest)[4..] == rest;
    }
  }

  /** Every encoding is tight. */
  lemma {:induction false} PackTight(b: Octets)
    ensures Tight(Pack(b))
  {
    UnpackPack(b);
    PackUnpack(Pack(b));
  }

  /** How many pad characters complete the last group. */
  function PadCount(length: nat): (n: nat)
    ensures n < 4 && (length + n) % 4 == 0
  {
    (4 - length % 4) % 4
  }

  function Pads(n: nat): (s: Text)
    ensures |s| == n && forall i :: 0 <= i < n ==> s[i] == PAD
  {
    seq(n, _ => PAD)
  }

  /** `base64.b64encode` and `base64.urlsafe_b64encode`. */
  function Encode(alphabet: Alphabet, b: Octets): Text {
    var chars := Chars(alphabet, Pack(b));
    chars + Pads(PadCount(|chars|))
  }

  /** `str.rstrip("=")`. */
  function StripPads(s: Text): Text {
    if |s| != 0 && s[|s| - 1] == PAD then StripPads(s[..|s| - 1]) else s
  }

  lemma {:induction false} StripPadded(s: Text, n: nat)
    requires PAD !in s
    ensures StripPads(s + Pads(n)) == s
  {
    if n == 0 {
      assert s + Pads(0) == s;
    } else {
      assert (s + Pads(n))[..|s| + n - 1] == s + Pads(n - 1);
      StripPadded(s, n - 1);
    }
  }

  /** Stripping the padding of an encoding leaves exactly its data characters. */
  lemma {:induction false} StripEncode(alphabet: Alphabet, b: Octets)
    ensures StripPads(Encode(alphabet, b)) == Chars(alphabet, Pack(b))
  {
    var chars := Chars(alphabet, Pack(b));
    CharsAreSextets(alphabet, Pack(b), []);
    StripPadded(chars, PadCount(|chars|));
  }
}
