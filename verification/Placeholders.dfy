/** Parameter placeholders in Scenario text: `${name}` or `${parameters.name}`
    (`_PLACEHOLDER`, src/avp_ref/scenario/compiler.py). */
module Placeholders {
  import opened Common

  /** ASCII text as code points. */
  function T(s: string): (t: Text)
    ensures |t| == |s| && forall i :: 0 <= i < |s| ==> t[i] == s[i] as int
  {
    seq(|s|, i requires 0 <= i < |s| => s[i] as int)
  }

  predicate NameStart(c: CodePoint) {
    65 <= c <= 90 || 97 <= c <= 122 || c == 95
  }

  predicate NameChar(c: CodePoint) {
    NameStart(c) || 48 <= c <= 57 || c == 46 || c == 45
  }

  /** The length of the longest run of name characters at the front. */
  function NameRun(s: Text): (n: nat)
    ensures n <= |s| && (forall i :: 0 <= i < n ==> NameChar(s[i])) && (n < |s| ==> !NameChar(s[n]))
  {
    if |s| == 0 || !NameChar(s[0]) then 0 else 1 + NameRun(s[1..])
  }

  const PREFIX: Text := T("parameters.")

  /** The captured name: the optional prefix is dropped if a name remains, else it is part of
      the name. */
  function Captured(raw: Text): Option<Text> {
    if StartsWith(raw, PREFIX) && |raw| > |PREFIX| && NameStart(raw[|PREFIX|]) then Some(raw[|PREFIX|..])
    else if |raw| > 0 && NameStart(raw[0]) then Some(raw)
    else None
  }

  /** A placeholder at the front: its name and its length. */
  function MatchFront(s: Text): Option<(Text, nat)> {
    if |s| < 4 || s[0] != 36 || s[1] != 123 then None
    else
      var n := NameRun(s[2..]);
      if n + 2 >= |s| || s[n + 2] != 125 then None
      else
        match Captured(s[2..n + 2])
        case None => None
        case Some(name) => Some((name, n + 3))
  }

  datatype Piece = Lit(c: CodePoint) | Ref(name: Text)

  /** Leftmost, non-overlapping matches, as `sub` finds them. */
  function Pieces(s: Text): seq<Piece>
    decreases |s|
  {
    if |s| == 0 then []
    else
      match MatchFront(s)
      case Some((name, length)) => if length <= |s| then [Ref(name)] + Pieces(s[length..]) else []
      case None => [Lit(s[0])] + Pieces(s[1..])
  }

  /** `search`. */
  predicate HasPlaceholder(s: Text) {
    exists i :: 0 <= i < |Pieces(s)| && Pieces(s)[i].Ref?
  }

  /** A placeholder is found exactly if one starts somewhere in the text. */
  lemma {:induction false} FoundIffPresent(s: Text)
    ensures HasPlaceholder(s) <==> exists i :: 0 <= i < |s| && MatchFront(s[i..]).Some?
    decreases |s|
  {
    if |s| != 0 {
      assert s[0..] == s;
      match MatchFront(s) {
        case Some((name, length)) =>
          assert length <= |s|;
          assert Pieces(s)[0].Ref?;
        case None =>
          var rest := s[1..];
          FoundIffPresent(rest);
          assert Pieces(s) == [Lit(s[0])] + Pieces(rest);
          if HasPlaceholder(rest) {
            var i :| 0 <= i < |Pieces(rest)| && Pieces(rest)[i].Ref?;
            assert Pieces(s)[i + 1].Ref?;
          }
          if HasPlaceholder(s) {
            var i :| 0 <= i < |Pieces(s)| && Pieces(s)[i].Ref?;
            assert Pieces(rest)[i - 1].Ref?;
          }
          if i :| 0 <= i < |s| && MatchFront(s[i..]).Some? {
            assert rest[i - 1..] == s[i..];
          }
          if i :| 0 <= i < |rest| && MatchFront(rest[i..]).Some? {
            assert s[i + 1..] == rest[i..];
          }
      }
    }
  }

  /** Text without a dollar sign has no placeholder and is all literal. */
  lemma {:induction false} PlainText(s: Text)
    requires 36 !in s
    ensures !HasPlaceholder(s) && Pieces(s) == seq(|s|, i requires 0 <= i < |s| => Lit(s[i]))
  {
    if |s| != 0 {
      PlainText(s[1..]);
      assert Pieces(s) == [Lit(s[0])] + Pieces(s[1..]);
    }
  }
}
