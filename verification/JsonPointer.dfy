/** Oracle input selection by RFC 6901 pointers (`resolve_json_pointer`,
    src/avp_ref/oracle_runner/package.py). */
module JsonPointer {
  import opened Common
  import DecimalValue

  /** A document; leaves are opaque because resolution never looks inside them. */
  datatype Doc = Members(members: map<Text, Doc>) | Items(items: seq<Doc>) | Leaf(value: int)

  datatype PointerError = NoLeadingSlash | MemberMissing | IndexUnusable | ScalarTraversed

  const SLASH: CodePoint := 47
  const TILDE: CodePoint := 126
  const ZERO: CodePoint := 48
  const ONE: CodePoint := 49

  /** `str.replace("~d", c)`: leftmost, non-overlapping. */
  function Replace(s: Text, d: CodePoint, c: CodePoint): Text {
    if |s| < 2 then s
    else if s[0] == TILDE && s[1] == d then [c] + Replace(s[2..], d, c)
    else [s[0]] + Replace(s[1..], d, c)
  }

  function Unescape(raw: Text): Text {
    Replace(Replace(raw, ONE, SLASH), ZERO, TILDE)
  }

  /** `str.split("/")`: never empty. */
  function Split(s: Text): (tokens: seq<Text>)
    ensures |tokens| > 0
  {
    if |s| == 0 then [[]]
    else
      var rest := Split(s[1..]);
      if s[0] == SLASH then [[]] + rest else [[s[0]] + rest[0]] + rest[1..]
  }

  function Tokens(pointer: Text): (tokens: seq<Text>)
    requires |pointer| > 0
  {
    var raw := Split(pointer[1..]);
    seq(|raw|, i requires 0 <= i < |raw| => Unescape(raw[i]))
  }

  /** One step: a member by name, or an element by Python `int()` and list indexing, which
      also counts from the end. */
  function Enter(current: Doc, token: Text, toInt: Text -> Option<int>): Result<Doc, PointerError> {
    match current
    case Members(m) => if token in m then Ok(m[token]) else Err(MemberMissing)
    case Items(items) =>
      (match toInt(token)
       case None => Err(IndexUnusable)
       case Some(i) =>
         if 0 <= i < |items| then Ok(items[i])
         else if -|items| <= i < 0 then Ok(items[|items| + i])
         else Err(IndexUnusable))
    case Leaf(_) => Err(ScalarTraversed)
  }

  function Walk(current: Doc, tokens: seq<Text>, toInt: Text -> Option<int>): Result<Doc, PointerError> {
    if |tokens| == 0 then Ok(current)
    else
      match Enter(current, tokens[0], toInt)
      case Err(e) => Err(e)
      case Ok(next) => Walk(next, tokens[1..], toInt)
  }

  /** What a pointer resolves to; `toInt` stands for Python's `int(token)`. */
  function Resolution(document: Doc, pointer: Text, toInt: Text -> Option<int>): Result<Doc, PointerError> {
    if |pointer| == 0 || pointer[0] != SLASH then Err(NoLeadingSlash) else Walk(document, Tokens(pointer), toInt)
  }

  /** `resolve_json_pointer`. */
  method Resolve(document: Doc, pointer: Text, toInt: Text -> Option<int>) returns (r: Result<Doc, PointerError>)
    ensures r == Resolution(document, pointer, toInt)
  {
    if !StartsWith(pointer, [SLASH]) {
      return Err(NoLeadingSlash);
    }
    var raw := Split(pointer[1..]);
    ghost var tokens := Tokens(pointer);
    var current := document;
    for i := 0 to |raw|
      invariant Walk(document, tokens, toInt) == Walk(current, tokens[i..], toInt)
    {
      var token := Unescape(raw[i]);
      assert tokens[i..][0] == token && tokens[i..][1..] == tokens[i + 1..];
      match Enter(current, token, toInt) {
        case Err(e) => return Err(e);
        case Ok(next) => current := next;
      }
    }
    r := Ok(current);
  }

  // The sending side: section 3 of RFC 6901 escapes `~` and `/` inside a token.

  function Escape(key: Text): Text {
    if |key| == 0 then []
    else (if key[0] == TILDE then [TILDE, ZERO] else if key[0] == SLASH then [TILDE, ONE] else [key[0]])
         + Escape(key[1..])
  }

  /** The pointer of a key list: each key escaped and preceded by a slash. */
  function PointerOf(keys: seq<Text>): Text {
    if |keys| == 0 then [] else [SLASH] + Joined(keys)
  }

  function Joined(keys: seq<Text>): Text
    requires |keys| > 0
  {
    if |keys| == 1 then Escape(keys[0]) else Escape(keys[0]) + [SLASH] + Joined(keys[1..])
  }

  /** The key with only its tildes, or only its slashes, still escaped. */
  function EscapeOnly(key: Text, c: CodePoint, d: CodePoint): Text {
    if |key| == 0 then []
    else (if key[0] == c then [TILDE, d] else [key[0]]) + EscapeOnly(key[1..], c, d)
  }

  lemma {:induction false} ReplaceCons(a: CodePoint, s: Text, d: CodePoint, c: CodePoint)
    requires a != TILDE || (|s| != 0 && s[0] != d)
    ensures Replace([a] + s, d, c) == [a] + Replace(s, d, c)
  {
    assert ([a] + s)[1..] == s;
  }

  lemma {:induction false} ReplaceHit(s: Text, d: CodePoint, c: CodePoint)
    ensures Replace([TILDE, d] + s, d, c) == [c] + Replace(s, d, c)
  {
    assert ([TILDE, d] + s)[2..] == s;
  }

  lemma {:induction false} ReplaceMiss(s: Text, e: CodePoint, d: CodePoint, c: CodePoint)
    requires e != d && e != TILDE
    ensures Replace([TILDE, e] + s, d, c) == [TILDE, e] + Replace(s, d, c)
  {
    ReplaceCons(e, s, d, c);
    ReplaceCons(TILDE, [e] + s, d, c);
    assert [TILDE, e] + s == [TILDE] + ([e] + s);
  }

  /** The first replacement undoes the slashes and leaves the tildes escaped. */
  lemma {:induction false} SlashesFirst(key: Text)
    ensures Replace(Escape(key), ONE, SLASH) == EscapeOnly(key, TILDE, ZERO)
  {
    if |key| != 0 {
      var rest := Escape(key[1..]);
      SlashesFirst(key[1..]);
      if key[0] == TILDE {
        ReplaceMiss(rest, ZERO, ONE, SLASH);
      } else if key[0] == SLASH {
        ReplaceHit(rest, ONE, SLASH);
      } else {
        ReplaceCons(key[0], rest, ONE, SLASH);
      }
    }
  }

  lemma {:induction false} ThenTildes(key: Text)
    ensures Replace(EscapeOnly(key, TILDE, ZERO), ZERO, TILDE) == key
  {
    if |key| != 0 {
      var rest := EscapeOnly(key[1..], TILDE, ZERO);
      ThenTildes(key[1..]);
      if key[0] == TILDE {
        ReplaceHit(rest, ZERO, TILDE);
      } else {
        ReplaceCons(key[0], rest, ZERO, TILDE);
      }
      assert key == [key[0]] + key[1..];
    }
  }

  /** Unescaping undoes escaping for every key, `~1` and `~01` included. */
  lemma {:induction false} UnescapeEscape(key: Text)
    ensures Unescape(Escape(key)) == key
  {
    SlashesFirst(key);
    ThenTildes(key);
  }

  lemma {:induction false} SplitAt(piece: Text, tail: Text)
    requires SLASH !in piece
    ensures Split(piece + [SLASH] + tail) == [piece] + Split(tail)
    ensures Split(piece) == [piece]
  {
    if |piece| == 0 {
      assert piece + [SLASH] + tail == [SLASH] + tail;
      assert ([SLASH] + tail)[1..] == tail;
    } else {
      SplitAt(piece[1..], tail);
      assert (piece + [SLASH] + tail)[1..] == piece[1..] + [SLASH] + tail;
      assert piece == [piece[0]] + piece[1..];
    }
  }

  lemma {:induction false} EscapedHasNoSlash(key: Text)
    ensures SLASH !in Escape(key)
  {
    if |key| != 0 {
      EscapedHasNoSlash(key[1..]);
    }
  }

  function EscapeAll(keys: seq<Text>): (pieces: seq<Text>)
    ensures |pieces| == |keys| && forall i :: 0 <= i < |keys| ==> pieces[i] == Escape(keys[i])
  {
    if |keys| == 0 then [] else [Escape(keys[0])] + EscapeAll(keys[1..])
  }

  lemma {:induction false} SplitJoined(keys: seq<Text>)
    requires |keys| > 0
    ensures Split(Joined(keys)) == EscapeAll(keys)
  {
    EscapedHasNoSlash(keys[0]);
    if |keys| == 1 {
      SplitAt(Escape(keys[0]), []);
    } else {
      SplitJoined(keys[1..]);
      SplitAt(Escape(keys[0]), Joined(keys[1..]));
    }
  }

  /** The tokens of a built pointer are exactly the keys it was built from. */
  lemma {:induction false} TokensOfPointer(keys: seq<Text>)
    requires |keys| > 0
    ensures |PointerOf(keys)| > 0 && PointerOf(keys)[0] == SLASH && Tokens(PointerOf(keys)) == keys
  {
    SplitJoined(keys);
    assert PointerOf(keys)[1..] == Joined(keys);
    forall i | 0 <= i < |keys| ensures Unescape(EscapeAll(keys)[i]) == keys[i] {
      UnescapeEscape(keys[i]);
    }
  }

  /** In every document, the pointer built from a non-empty key list leads exactly where the
      keys lead, success and error alike; a path of member names finds the value they name. */
  lemma {:induction false} PointerFollowsKeys(document: Doc, keys: seq<Text>, toInt: Text -> Option<int>)
    requires |keys| > 0
    ensures Resolution(document, PointerOf(keys), toInt) == Walk(document, keys, toInt)
  {
    TokensOfPointer(keys);
  }

  lemma {:induction false} WalkHasStarted(current: Doc, tokens: seq<Text>, toInt: Text -> Option<int>)
    ensures Walk(current, tokens, toInt) != Err(NoLeadingSlash)
    decreases |tokens|
  {
    if |tokens| > 0 && Enter(current, tokens[0], toInt).Ok? {
      WalkHasStarted(Enter(current, tokens[0], toInt).value, tokens[1..], toInt);
    }
  }

  /** RFC 6901 lets the empty pointer name the whole document; the resolver refuses it, in every
      document, and refuses no other built pointer for its first character. */
  lemma {:induction false} WholeDocumentHasNoPointer(document: Doc, keys: seq<Text>, toInt: Text -> Option<int>)
    ensures Resolution(document, PointerOf(keys), toInt) == Err(NoLeadingSlash) <==> keys == []
    ensures Walk(document, [], toInt) == Ok(document)
  {
    if |keys| > 0 {
      PointerFollowsKeys(document, keys, toInt);
      WalkHasStarted(document, keys, toInt);
    }
  }

  // Array elements.

  /** An array index in the sense of section 4 of RFC 6901: digits without leading zeros. */
  predicate IsIndex(token: Text) {
    |token| > 0 && DecimalValue.AllDigits(token) && (token[0] == ZERO ==> |token| == 1)
  }

  /** What the RFC lets a token select from an array. */
  function Element(items: seq<Doc>, token: Text): Option<Doc> {
    if IsIndex(token) && DecimalValue.Number(token) < |items| then Some(items[DecimalValue.Number(token)]) else None
  }

  /** Python's `int` reads digits as the number they spell. */
  ghost predicate ReadsDigits(toInt: Text -> Option<int>) {
    forall t :: IsIndex(t) ==> toInt(t) == Some(DecimalValue.Number(t))
  }

  /** Which tokens select an element: those that `int` reads as a number from -n to n - 1. */
  lemma {:induction false} ElementsExactly(items: seq<Doc>, token: Text, toInt: Text -> Option<int>)
    ensures Resolution(Items(items), PointerOf([token]), toInt).Ok? <==>
      toInt(token).Some? && -|items| <= toInt(token).value < |items|
    ensures Resolution(Items(items), PointerOf([token]), toInt).Ok? ==>
      Resolution(Items(items), PointerOf([token]), toInt).value ==
        items[if toInt(token).value < 0 then |items| + toInt(token).value else toInt(token).value]
  {
    PointerFollowsKeys(Items(items), [token], toInt);
    assert [token][1..] == [];
  }

  /** Every element the RFC selects is found. A token selects an element although the RFC does
      not let it exactly when it is no index in the RFC's sense and `int` reads it as a number
      from -n to n - 1; a negative number is always such a token. */
  lemma {:induction false} MoreElementsExactly(items: seq<Doc>, token: Text, toInt: Text -> Option<int>)
    requires ReadsDigits(toInt)
    ensures var found := Resolution(Items(items), PointerOf([token]), toInt);
      && (Element(items, token).Some? ==> found == Ok(Element(items, token).value))
      && (found.Ok? && Element(items, token).None? <==>
            !IsIndex(token) && toInt(token).Some? && -|items| <= toInt(token).value < |items|)
    ensures toInt(token).Some? && toInt(token).value < 0 ==> !IsIndex(token)
  {
    ElementsExactly(items, token, toInt);
  }

  const MINUS_ONE: Text := [45, 49]

  /** `/-1` selects the last element of every array that has one. */
  lemma {:induction false} MinusOneIsLast(items: seq<Doc>, toInt: Text -> Option<int>)
    requires |items| > 0 && toInt(MINUS_ONE) == Some(-1)
    ensures Resolution(Items(items), [SLASH] + MINUS_ONE, toInt) == Ok(items[|items| - 1])
    ensures Element(items, MINUS_ONE).None?
  {
    ElementsExactly(items, MINUS_ONE, toInt);
    assert Escape(MINUS_ONE) == MINUS_ONE;
    assert PointerOf([MINUS_ONE]) == [SLASH] + MINUS_ONE;
  }

  function UnescapeSwapped(raw: Text): Text {
    Replace(Replace(raw, ZERO, TILDE), ONE, SLASH)
  }

  predicate HasTildeOne(key: Text) {
    exists i :: 0 <= i < |key| - 1 && key[i] == TILDE && key[i + 1] == ONE
  }

  lemma {:induction false} TildesFirst(key: Text)
    ensures Replace(Escape(key), ZERO, TILDE) == EscapeOnly(key, SLASH, ONE)
  {
    if |key| != 0 {
      var rest := Escape(key[1..]);
      TildesFirst(key[1..]);
      if key[0] == TILDE {
        ReplaceHit(rest, ZERO, TILDE);
      } else if key[0] == SLASH {
        ReplaceMiss(rest, ONE, ZERO, TILDE);
      } else {
        ReplaceCons(key[0], rest, ZERO, TILDE);
      }
    }
  }

  lemma {:induction false} TildeOneTail(key: Text)
    requires |key| > 0
    ensures HasTildeOne(key) <==> (|key| > 1 && key[0] == TILDE && key[1] == ONE) || HasTildeOne(key[1..])
  {
    if HasTildeOne(key) {
      var i :| 0 <= i < |key| - 1 && key[i] == TILDE && key[i + 1] == ONE;
      if i > 0 {
        assert key[1..][i - 1] == TILDE && key[1..][i - 1 + 1] == ONE;
      }
    }
    if HasTildeOne(key[1..]) {
      var i :| 0 <= i < |key[1..]| - 1 && key[1..][i] == TILDE && key[1..][i + 1] == ONE;
      assert key[i + 1] == TILDE && key[i + 1 + 1] == ONE;
    }
  }

  function SlashesLast(key: Text): Text {
    Replace(EscapeOnly(key, SLASH, ONE), ONE, SLASH)
  }

  lemma {:induction false} SlashesLastStep(key: Text)
    requires |key| > 0
    ensures key[0] == TILDE && |key| > 1 && key[1] == ONE ==> SlashesLast(key) == [SLASH] + SlashesLast(key[2..])
    ensures !(key[0] == TILDE && |key| > 1 && key[1] == ONE) ==> SlashesLast(key) == [key[0]] + SlashesLast(key[1..])
  {
    var rest := EscapeOnly(key[1..], SLASH, ONE);
    if key[0] == SLASH {
      ReplaceHit(rest, ONE, SLASH);
    } else if key[0] == TILDE && |key| > 1 && key[1] == ONE {
      assert key[1..][1..] == key[2..];
      ReplaceHit(EscapeOnly(key[2..], SLASH, ONE), ONE, SLASH);
      assert [TILDE] + rest == [TILDE, ONE] + EscapeOnly(key[2..], SLASH, ONE);
    } else if |rest| > 0 {
      ReplaceCons(key[0], rest, ONE, SLASH);
    }
  }

  lemma {:induction false} ThenSlashes(key: Text)
    ensures |SlashesLast(key)| <= |key|
    ensures if HasTildeOne(key) then |SlashesLast(key)| < |key| else SlashesLast(key) == key
    decreases |key|
  {
    if |key| != 0 {
      SlashesLastStep(key);
      TildeOneTail(key);
      ThenSlashes(key[1..]);
      if key[0] == TILDE && |key| > 1 && key[1] == ONE {
        ThenSlashes(key[2..]);
      }
      assert key == [key[0]] + key[1..];
    }
  }

  /** The order of the two replacements is what makes this work: swapped, they recover a
      key exactly when `~1` does not occur in it. */
  lemma {:induction false} SwappedOrderFailsOnTildeOne(key: Text)
    ensures UnescapeSwapped(Escape(key)) == key <==> !HasTildeOne(key)
  {
    TildesFirst(key);
    ThenSlashes(key);
  }
}
