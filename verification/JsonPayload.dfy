/**
 JSON payloads are escaped before they are quoted, so JavaScript reads back a text in which
 every `<` is still escaped. A JSON parser undoes that: the tokens are the same.
 */
module JsonPayload {
  import opened Basics
  import opened JsLiteral

  /** A character outside strings, or a string by its code units. */
  datatype Token = Mark(c: char) | Str(units: seq<nat>)

  /** What may stand outside strings: structure, white space, numbers and the three literal names. */
  predicate Structural(c: char) {
    || c == '{' || c == '}' || c == '[' || c == ']' || c == ':' || c == ','
    || c == ' ' || c == '\t' || c == '\r' || c == '\n'
    || '0' <= c <= '9' || c == '+' || c == '-' || c == '.' || c == 'E'
    || c in {'a', 'e', 'f', 'l', 'n', 'r', 's', 't', 'u'}
  }

  function SimpleEscape(c: char): Option<nat> {
    if c == '\"' || c == '\\' || c == '/' then Some(c as int)
    else if c == 'b' then Some(8)
    else if c == 'f' then Some(12)
    else if c == 'n' then Some(10)
    else if c == 'r' then Some(13)
    else if c == 't' then Some(9)
    else None
  }

  /** One character or escape of a string: its code unit and how many characters it takes. */
  function Unit(s: string): Option<(nat, nat)> {
    if s == [] || s[0] == '\"' || s[0] < ' ' then None
    else if s[0] != '\\' then Some((s[0] as int, 1))
    else if |s| >= 6 && s[1] == 'u' then
      match FourHex(s[2..6]) case None => None case Some(n) => Some((n, 6))
    else if |s| >= 2 then
      match SimpleEscape(s[1]) case None => None case Some(n) => Some((n, 2))
    else None
  }

  /** The rest of a string after its opening quote: its units and what follows the closing quote. */
  function StringBody(s: string): (r: Option<(seq<nat>, string)>)
    ensures r.Some? ==> |r.value.1| < |s|
    decreases |s|
  {
    if s != [] && s[0] == '\"' then Some(([], s[1..]))
    else
      match Unit(s)
      case None => None
      case Some((unit, width)) =>
        if width > |s| then None
        else
          match StringBody(s[width..])
          case None => None
          case Some((units, rest)) => Some(([unit] + units, rest))
  }

  function Tokens(s: string): Option<seq<Token>>
    decreases |s|
  {
    if s == [] then Some([])
    else if s[0] == '\"' then
      match StringBody(s[1..])
      case None => None
      case Some((units, rest)) =>
        (match Tokens(rest) case None => None case Some(ts) => Some([Str(units)] + ts))
    else if Structural(s[0]) then
      match Tokens(s[1..]) case None => None case Some(ts) => Some([Mark(s[0])] + ts)
    else None
  }

  // ---------- The `<` escape is transparent to JSON ----------

  lemma HexIsNotLt(s: string)
    requires |s| == 4 && FourHex(s).Some?
    ensures '<' !in s
  {
    assert HexValue(s[0]).Some? && HexValue(s[1]).Some? && HexValue(s[2]).Some? && HexValue(s[3]).Some?;
    assert forall c: char | HexValue(c).Some? :: c != '<';
  }

  /** A unit keeps its value, and what follows it is escaped on its own. */
  lemma UnitEscaped(s: string)
    requires Unit(s).Some?
    ensures var (unit, width) := Unit(s).value;
            && width <= |s|
            && EscapeLt(s) == EscapeLt(s[..width]) + EscapeLt(s[width..])
            && Unit(EscapeLt(s)) == Some((unit, |EscapeLt(s[..width])|))
  {
    var (unit, width) := Unit(s).value;
    assert s == s[..width] + s[width..];
    EscapeLtConcat(s[..width], s[width..]);
    var (head, tail) := (EscapeLt(s[..width]), EscapeLt(s[width..]));
    if s[0] == '<' {
      assert s[..1] == "<";
      EscapedLtIsUnit(tail);
    } else {
      UnitHasNoLt(s);
      EscapeLtIdentity(s[..width]);
      assert (s[..width] + tail)[..width] == s[..width];
      UnitLocal(s, s[..width] + tail, width);
    }
  }

  lemma UnitHasNoLt(s: string)
    requires Unit(s).Some? && s[0] != '<' && Unit(s).value.1 <= |s|
    ensures '<' !in s[..Unit(s).value.1]
  {
    if Unit(s).value.1 == 6 {
      HexIsNotLt(s[2..6]);
      assert s[..6] == [s[0], s[1]] + s[2..6];
    }
  }

  lemma EscapedLtIsUnit(tail: string)
    ensures EscapeLt("<") == "\\u003c"
    ensures Unit("\\u003c" + tail) == Some(('<' as int, 6))
  {
    assert "<"[1..] == [];
    var s := "\\u003c" + tail;
    assert s[2..6] == "003c";
    assert FourHex("003c") == Some(0x3c);
  }

  /** A unit depends only on the characters it takes. */
  lemma UnitLocal(s: string, t: string, width: nat)
    requires Unit(s).Some? && Unit(s).value.1 == width <= |s| && width <= |t| && s[..width] == t[..width]
    ensures Unit(t) == Unit(s)
  {
    assert forall k | 0 <= k < width :: s[k] == s[..width][k] == t[k];
    if width == 6 {
      assert s[2..6] == s[..6][2..6] && t[2..6] == t[..6][2..6];
    }
  }

  lemma {:induction false} StringEscaped(s: string)
    requires StringBody(s).Some?
    ensures StringBody(EscapeLt(s)) == Some((StringBody(s).value.0, EscapeLt(StringBody(s).value.1)))
    decreases |s|
  {
    if s[0] == '\"' {
      assert EscapeLt(s) == "\"" + EscapeLt(s[1..]);
      assert EscapeLt(s)[1..] == EscapeLt(s[1..]);
    } else {
      var (unit, width) := Unit(s).value;
      UnitEscaped(s);
      StringEscaped(s[width..]);
      var e, w := EscapeLt(s), |EscapeLt(s[..width])|;
      assert e[w..] == EscapeLt(s[width..]);
    }
  }

  lemma {:induction false} TokensEscaped(s: string)
    requires Tokens(s).Some?
    ensures Tokens(EscapeLt(s)) == Tokens(s)
    decreases |s|
  {
    if s != [] {
      assert EscapeLt(s) == [s[0]] + EscapeLt(s[1..]);
      assert EscapeLt(s)[1..] == EscapeLt(s[1..]);
      if s[0] == '\"' {
        StringEscaped(s[1..]);
        TokensEscaped(StringBody(s[1..]).value.1);
      } else {
        TokensEscaped(s[1..]);
      }
    }
  }

  // ---------- No NUL in a JSON text ----------

  lemma {:induction false} StringHasNoNul(s: string)
    requires StringBody(s).Some?
    ensures var rest := StringBody(s).value.1;
            |rest| < |s| && rest == s[|s| - |rest|..] && '\0' !in s[..|s| - |rest|]
    decreases |s|
  {
    if s[0] != '\"' {
      var width := Unit(s).value.1;
      StringHasNoNul(s[width..]);
      var rest := StringBody(s).value.1;
      UnitHasNoNul(s);
      assert s[..|s| - |rest|] == s[..width] + s[width..][..|s[width..]| - |rest|];
    }
  }

  lemma UnitHasNoNul(s: string)
    requires Unit(s).Some? && Unit(s).value.1 <= |s|
    ensures '\0' !in s[..Unit(s).value.1]
  {
    var width := Unit(s).value.1;
    if width == 6 {
      var h := s[2..6];
      assert HexValue(h[0]).Some? && HexValue(h[1]).Some? && HexValue(h[2]).Some? && HexValue(h[3]).Some?;
      assert forall k | 2 <= k < 6 :: s[k] == h[k - 2];
    }
  }

  lemma {:induction false} JsonHasNoNul(s: string)
    requires Tokens(s).Some?
    ensures '\0' !in s
    decreases |s|
  {
    if s != [] {
      if s[0] == '\"' {
        StringHasNoNul(s[1..]);
        var rest := StringBody(s[1..]).value.1;
        JsonHasNoNul(rest);
        assert s == [s[0]] + s[1..][..|s[1..]| - |rest|] + rest;
      } else {
        JsonHasNoNul(s[1..]);
        assert s == [s[0]] + s[1..];
      }
    }
  }

  lemma {:induction false} EscapeAddsNoNul(s: string)
    requires '\0' !in s
    ensures '\0' !in EscapeLt(s)
    decreases |s|
  {
    if s != [] {
      EscapeAddsNoNul(s[1..]);
    }
  }

  lemma {:induction false} DebugAddsNoLt(s: string, hidden: Hidden)
    requires '<' !in s
    ensures '<' !in DebugBody(s, hidden)
    decreases |s|
  {
    if s != [] {
      DebugAddsNoLt(s[1..], hidden);
      HexRoundTrip(s[0] as int, []);
      assert '<' !in DebugChar(s[0], hidden);
    }
  }

  /**
   Main result: what JavaScript, strict or not, reads of a streamed JSON payload has the payload's own
   tokens, and no `<` is written.
   */
  lemma PayloadRoundTrip(payload: string, hidden: Hidden, strict: bool)
    requires DigitsShown(hidden) && Tokens(payload).Some?
    ensures JsDecode(PayloadLiteral(payload, hidden), strict) == Some(EscapeLt(payload))
    ensures Tokens(JsDecode(PayloadLiteral(payload, hidden), strict).value) == Tokens(payload)
    ensures '<' !in PayloadLiteral(payload, hidden)
  {
    JsonHasNoNul(payload);
    EscapeAddsNoNul(payload);
    DebugRoundTrip(EscapeLt(payload), hidden, strict);
    TokensEscaped(payload);
    NoLtLeft(payload);
    DebugAddsNoLt(EscapeLt(payload), hidden);
  }
}
