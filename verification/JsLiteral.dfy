/**
 The string literals of the stream: Rust's `{:?}` of a string, the `<` escape before or after
 it, and what a JavaScript engine (section 12.9.4 of ECMA-262) and a JSON parser (section 7 of
 RFC 8259) make of the result.
 */
module JsLiteral {
  import opened Basics

  // ---------- Hexadecimal ----------

  function HexDigit(d: nat): char
    requires d < 16
  {
    if d < 10 then ('0' as int + d) as char else ('a' as int + d - 10) as char
  }

  function HexValue(c: char): Option<nat> {
    if '0' <= c <= '9' then Some(c as int - '0' as int)
    else if 'a' <= c <= 'f' then Some(c as int - 'a' as int + 10)
    else if 'A' <= c <= 'F' then Some(c as int - 'A' as int + 10)
    else None
  }

  /** Lower-case hexadecimal without leading zeros. */
  function Hex(n: nat): string {
    if n < 16 then [HexDigit(n)] else Hex(n / 16) + [HexDigit(n % 16)]
  }

  // ---------- What is written ----------

  /** `escape_lt`. */
  function EscapeLt(s: string): string {
    if s == [] then [] else (if s[0] == '<' then "\\u003c" else [s[0]]) + EscapeLt(s[1..])
  }

  /** Characters that `{:?}` writes as a code point: those not printable or combining. */
  type Hidden = char -> bool

  function DebugChar(c: char, hidden: Hidden): string {
    if c == '\0' then "\\0"
    else if c == '\t' then "\\t"
    else if c == '\r' then "\\r"
    else if c == '\n' then "\\n"
    else if c == '\"' then "\\\""
    else if c == '\\' then "\\\\"
    else if hidden(c) then "\\u{" + Hex(c as int) + "}"
    else [c]
  }

  function DebugBody(s: string, hidden: Hidden): string {
    if s == [] then [] else DebugChar(s[0], hidden) + DebugBody(s[1..], hidden)
  }

  /** `format!("{:?}", s)`. */
  function DebugString(s: string, hidden: Hidden): string {
    "\"" + DebugBody(s, hidden) + "\""
  }

  /** A streamed error message: quoted, then escaped. */
  function ErrorLiteral(message: string, hidden: Hidden): string {
    EscapeLt(DebugString(message, hidden))
  }

  /** A streamed payload: escaped, then quoted. */
  function PayloadLiteral(payload: string, hidden: Hidden): string {
    DebugString(EscapeLt(payload), hidden)
  }

  // ---------- What JavaScript reads ----------

  /** The code point of `n`, if it is a character. */
  function CodePoint(n: nat): Option<char> {
    if n < 0xD800 || 0xE000 <= n < 0x11_0000 then Some(n as char) else None
  }

  /** Hexadecimal digits up to a closing brace: their value and what follows the brace. */
  function BracedHex(s: string, acc: nat): Option<(nat, string)>
    decreases |s|
  {
    if s == [] then None
    else if s[0] == '}' then Some((acc, s[1..]))
    else
      match HexValue(s[0])
      case None => None
      case Some(d) => BracedHex(s[1..], acc * 16 + d)
  }

  predicate IsDigit(c: char, last: char) {
    '0' <= c <= last
  }

  /** The digits that may not follow a NUL escape: all of them in strict code, the octal ones in a plain script. */
  function LastDigit(strict: bool): char {
    if strict then '9' else '7'
  }

  predicate StartsWithDigit(s: string, strict: bool) {
    s != [] && IsDigit(s[0], LastDigit(strict))
  }

  /** Length of a legacy octal escape: at most three digits, and two if the first is above 3. */
  function OctalWidth(s: string): (width: nat)
    requires s != []
    ensures 1 <= width <= |s|
  {
    if |s| < 2 || !IsDigit(s[1], '7') then 1
    else if |s| < 3 || s[0] > '3' || !IsDigit(s[2], '7') then 2
    else 3
  }

  function OctalValue(s: string): (n: nat)
    requires forall k | 0 <= k < |s| :: IsDigit(s[k], '7')
    ensures |s| <= 1 ==> n < 8
    ensures |s| <= 2 ==> n < 64
    ensures |s| <= 3 ==> n < 512
  {
    if s == [] then 0
    else
      var (init, last) := (s[..|s| - 1], s[|s| - 1]);
      assert IsDigit(last, '7') && forall k | 0 <= k < |init| :: init[k] == s[k];
      OctalValue(init) * 8 + (last as int - '0' as int)
  }

  /** An escape that starts with a digit, from that digit on. */
  function DigitEscape(s: string, strict: bool): (r: Option<(char, string)>)
    requires s != [] && IsDigit(s[0], '9')
    ensures r.Some? ==> |r.value.1| < |s|
  {
    if s[0] == '0' && !(|s| > 1 && IsDigit(s[1], '9')) then Some(('\0', s[1..]))
    else if strict then None
    else if s[0] > '7' then Some((s[0], s[1..]))
    else Some((OctalValue(s[..OctalWidth(s)]) as char, s[OctalWidth(s)..]))
  }

  /** One escape sequence after its backslash: the character and what follows. */
  function Escape(s: string, strict: bool): (r: Option<(char, string)>)
    ensures r.Some? ==> |r.value.1| < |s|
  {
    if s == [] then None
    else if s[0] == 'n' then Some(('\n', s[1..]))
    else if s[0] == 'r' then Some(('\r', s[1..]))
    else if s[0] == 't' then Some(('\t', s[1..]))
    else if s[0] == '\\' || s[0] == '\"' || s[0] == '\'' then Some((s[0], s[1..]))
    else if IsDigit(s[0], '9') then DigitEscape(s, strict)
    else if s[0] == 'u' && |s| > 1 && s[1] == '{' then
      (match BracedHex(s[2..], 0)
       case None => None
       case Some((n, rest)) =>
         if CodePoint(n).Some? && |rest| < |s| then Some((CodePoint(n).value, rest)) else None)
    else if s[0] == 'u' && |s| >= 5 then
      (match FourHex(s[1..5])
       case None => None
       case Some(n) => if CodePoint(n).Some? then Some((CodePoint(n).value, s[5..])) else None)
    else None
  }

  function FourHex(s: string): Option<nat>
    requires |s| == 4
  {
    match (HexValue(s[0]), HexValue(s[1]), HexValue(s[2]), HexValue(s[3]))
    case (Some(a), Some(b), Some(c), Some(d)) => Some(((a * 16 + b) * 16 + c) * 16 + d)
    case _ => None
  }

  /** The value of a double-quoted literal, from after its opening quote to the end of the text. */
  function JsBody(s: string, strict: bool): Option<string>
    decreases |s|
  {
    if s == [] then None
    else if s[0] == '\"' then (if |s| == 1 then Some([]) else None)
    else if s[0] == '\n' || s[0] == '\r' then None
    else if s[0] == '\\' then
      match Escape(s[1..], strict)
      case None => None
      case Some((c, rest)) => Cons(c, JsBody(rest, strict))
    else Cons(s[0], JsBody(s[1..], strict))
  }

  function Cons(c: char, tail: Option<string>): Option<string> {
    if tail.Some? then Some([c] + tail.value) else None
  }

  function JsDecode(s: string, strict: bool): Option<string> {
    if s == [] || s[0] != '\"' then None else JsBody(s[1..], strict)
  }

  // ---------- Hexadecimal round trip ----------

  lemma {:induction false} HexRoundTrip(n: nat, rest: string)
    ensures BracedHex(Hex(n) + rest, 0) == BracedHex(rest, n)
    ensures '<' !in Hex(n)
    decreases n
  {
    if n < 16 {
      assert (Hex(n) + rest)[1..] == rest;
    } else {
      var last := [HexDigit(n % 16)];
      HexRoundTrip(n / 16, last + rest);
      assert Hex(n) + rest == Hex(n / 16) + (last + rest);
      assert (last + rest)[1..] == rest;
    }
  }

  // ---------- Escaping `<` ----------

  lemma {:induction false} EscapeLtConcat(s: string, t: string)
    ensures EscapeLt(s + t) == EscapeLt(s) + EscapeLt(t)
    decreases |s|
  {
    if s == [] {
      assert s + t == t;
    } else {
      assert (s + t)[1..] == s[1..] + t;
      EscapeLtConcat(s[1..], t);
    }
  }

  lemma {:induction false} EscapeLtIdentity(s: string)
    requires '<' !in s
    ensures EscapeLt(s) == s
    decreases |s|
  {
    if s != [] {
      EscapeLtIdentity(s[1..]);
    }
  }

  /** The streamed text never opens a tag. */
  lemma {:induction false} NoLtLeft(s: string)
    ensures '<' !in EscapeLt(s)
    decreases |s|
  {
    if s != [] {
      NoLtLeft(s[1..]);
    }
  }

  /** What one character becomes inside a literal, with or without the `<` escape after quoting. */
  function WrittenChar(c: char, hidden: Hidden, escaped: bool): string {
    if escaped && c == '<' && !hidden(c) then "\\u003c" else DebugChar(c, hidden)
  }

  function Written(s: string, hidden: Hidden, escaped: bool): string {
    if s == [] then [] else WrittenChar(s[0], hidden, escaped) + Written(s[1..], hidden, escaped)
  }

  lemma EscapedCharIs(c: char, hidden: Hidden)
    ensures EscapeLt(DebugChar(c, hidden)) == WrittenChar(c, hidden, true)
  {
    if c == '<' && !hidden(c) {
      assert [c][1..] == [];
    } else {
      HexRoundTrip(c as int, []);
      EscapeLtIdentity(DebugChar(c, hidden));
    }
  }

  lemma {:induction false} WrittenIs(s: string, hidden: Hidden)
    ensures DebugBody(s, hidden) == Written(s, hidden, false)
    ensures EscapeLt(DebugBody(s, hidden)) == Written(s, hidden, true)
    decreases |s|
  {
    if s != [] {
      EscapeLtConcat(DebugChar(s[0], hidden), DebugBody(s[1..], hidden));
      EscapedCharIs(s[0], hidden);
      WrittenIs(s[1..], hidden);
    }
  }

  // ---------- Decoding one character ----------

  /** A NUL is written `\0`, which JavaScript reads differently before a digit. */
  predicate NulThenDigit(s: string, strict: bool) {
    exists k | 0 <= k < |s| - 1 :: s[k] == '\0' && IsDigit(s[k + 1], LastDigit(strict))
  }

  /** `written` is one encoded character that JavaScript reads as `c`, unless a NUL meets a digit. */
  ghost predicate Encodes(written: string, c: char, rest: string, strict: bool) {
    (c == '\0' && StartsWithDigit(rest, strict)) || JsBody(written + rest, strict) == Cons(c, JsBody(rest, strict))
  }

  lemma HiddenEncodes(c: char, rest: string, strict: bool)
    ensures Encodes("\\u{" + Hex(c as int) + "}", c, rest, strict)
  {
    var n := c as int;
    var written := "\\u{" + Hex(n) + "}";
    var after := Hex(n) + ("}" + rest);
    HexRoundTrip(n, "}" + rest);
    assert ("}" + rest)[1..] == rest;
    assert BracedHex(after, 0) == Some((n, rest));
    assert written + rest == "\\u{" + after;
    var escape := "u{" + after;
    assert (written + rest)[1..] == escape && escape[2..] == after;
    assert CodePoint(n) == Some(c);
    assert Escape(escape, strict) == Some((c, rest));
  }

  lemma LtEncodes(rest: string, strict: bool)
    ensures Encodes("\\u003c", '<', rest, strict)
  {
    var s := "\\u003c" + rest;
    assert s[1..] == "u003c" + rest;
    assert s[1..][1..5] == "003c" && s[1..][5..] == rest;
    assert FourHex("003c") == Some(0x3c);
    assert CodePoint(0x3c) == Some('<');
  }

  lemma ShortEncodes(c: char, letter: char, rest: string, strict: bool)
    requires (c, letter) in {('\t', 't'), ('\r', 'r'), ('\n', 'n'), ('\"', '\"'), ('\\', '\\')}
    ensures Encodes(['\\', letter], c, rest, strict)
  {
    var s := ['\\', letter] + rest;
    assert s[1..] == [letter] + rest;
    assert s[1..][1..] == rest;
  }

  /** Before 8 and 9 a plain script still reads NUL. */
  lemma NulEncodes(rest: string, strict: bool)
    ensures Encodes("\\0", '\0', rest, strict)
    ensures strict && StartsWithDigit(rest, strict) ==> JsBody("\\0" + rest, strict) == None
  {
    var s := "\\0" + rest;
    var escape := "0" + rest;
    assert s[1..] == escape && escape[1..] == rest;
    assert |rest| > 0 ==> escape[1] == rest[0];
    if !strict && rest != [] && IsDigit(rest[0], '9') && !IsDigit(rest[0], '7') {
      assert OctalWidth(escape) == 1 && escape[..1] == "0";
      assert OctalValue("0") == 0;
    }
  }

  /** Before an octal digit it reads one or two digits as part of the escape. */
  lemma NulSwallows(rest: string) returns (width: nat, c: char)
    requires StartsWithDigit(rest, false)
    ensures width == (if |rest| > 1 && IsDigit(rest[1], '7') then 2 else 1)
    ensures JsBody("\\0" + rest, false) == Cons(c, JsBody(rest[width..], false))
  {
    var (s, escape) := ("\\0" + rest, "0" + rest);
    assert s[1..] == escape && escape[1] == rest[0];
    assert |rest| > 1 ==> escape[2] == rest[1];
    width := OctalWidth(escape) - 1;
    assert escape[width + 1..] == rest[width..];
    c := DigitEscape(escape, false).value.0;
  }

  lemma DebugCharEncodes(c: char, hidden: Hidden, rest: string, strict: bool)
    ensures Encodes(DebugChar(c, hidden), c, rest, strict)
  {
    if c == '\t' {
      ShortEncodes(c, 't', rest, strict);
    } else if c == '\r' {
      ShortEncodes(c, 'r', rest, strict);
    } else if c == '\n' {
      ShortEncodes(c, 'n', rest, strict);
    } else if c == '\"' || c == '\\' {
      ShortEncodes(c, c, rest, strict);
    } else if c == '\0' {
      NulEncodes(rest, strict);
    } else if hidden(c) {
      HiddenEncodes(c, rest, strict);
    } else {
      assert ([c] + rest)[1..] == rest;
    }
  }

  // ---------- Whole literals ----------

  lemma NulThenDigitUnfolds(s: string, strict: bool)
    requires s != []
    ensures NulThenDigit(s, strict) <==>
            (s[0] == '\0' && StartsWithDigit(s[1..], strict)) || NulThenDigit(s[1..], strict)
  {
    var (t, last) := (s[1..], LastDigit(strict));
    if NulThenDigit(t, strict) {
      var k :| 0 <= k < |t| - 1 && t[k] == '\0' && IsDigit(t[k + 1], last);
      assert s[k + 1] == '\0' && IsDigit(s[k + 1 + 1], last);
    }
    if s[0] == '\0' && StartsWithDigit(t, strict) {
      assert s[0] == '\0' && IsDigit(s[0 + 1], last);
    }
    if NulThenDigit(s, strict) {
      var k :| 0 <= k < |s| - 1 && s[k] == '\0' && IsDigit(s[k + 1], last);
      if k > 0 {
        assert t[k - 1] == '\0' && IsDigit(t[k - 1 + 1], last);
      }
    }
  }

  /** A digit is written as itself. */
  ghost predicate DigitsShown(hidden: Hidden) {
    forall c: char | IsDigit(c, '9') :: !hidden(c)
  }

  /** The literal from after its opening quote. */
  function Quoted(s: string, hidden: Hidden, escaped: bool): string {
    Written(s, hidden, escaped) + "\""
  }

  /** The written text starts with a digit exactly when the string does. */
  lemma WrittenStart(s: string, hidden: Hidden, escaped: bool, strict: bool)
    requires DigitsShown(hidden)
    ensures StartsWithDigit(Quoted(s, hidden, escaped), strict) <==> StartsWithDigit(s, strict)
    ensures StartsWithDigit(s, strict) ==>
              && Quoted(s, hidden, escaped)[0] == s[0]
              && Quoted(s, hidden, escaped)[1..] == Quoted(s[1..], hidden, escaped)
  {}

  /** Where no NUL meets a digit at the front, one character is read and the rest as before. */
  lemma FirstDecodes(s: string, hidden: Hidden, escaped: bool, strict: bool)
    requires DigitsShown(hidden) && s != [] && !(s[0] == '\0' && StartsWithDigit(s[1..], strict))
    ensures JsBody(Quoted(s, hidden, escaped), strict) == Cons(s[0], JsBody(Quoted(s[1..], hidden, escaped), strict))
  {
    var rest := Quoted(s[1..], hidden, escaped);
    assert Quoted(s, hidden, escaped) == WrittenChar(s[0], hidden, escaped) + rest;
    DebugCharEncodes(s[0], hidden, rest, strict);
    LtEncodes(rest, strict);
    WrittenStart(s[1..], hidden, escaped, strict);
  }

  lemma {:induction false} StrictDecodes(s: string, hidden: Hidden, escaped: bool)
    requires DigitsShown(hidden)
    ensures JsBody(Quoted(s, hidden, escaped), true) == if NulThenDigit(s, true) then None else Some(s)
    decreases |s|
  {
    if s != [] {
      NulThenDigitUnfolds(s, true);
      assert s == [s[0]] + s[1..];
      if s[0] == '\0' && StartsWithDigit(s[1..], true) {
        WrittenStart(s[1..], hidden, escaped, true);
        NulEncodes(Quoted(s[1..], hidden, escaped), true);
        assert Quoted(s, hidden, escaped) == "\\0" + Quoted(s[1..], hidden, escaped);
      } else {
        FirstDecodes(s, hidden, escaped, true);
        StrictDecodes(s[1..], hidden, escaped);
      }
    }
  }

  /** The swallowed digits are digits of the string. */
  lemma SwallowedDecodes(s: string, hidden: Hidden, escaped: bool) returns (k: nat, c: char)
    requires DigitsShown(hidden) && |s| > 1 && s[0] == '\0' && StartsWithDigit(s[1..], false)
    ensures 2 <= k <= |s|
    ensures JsBody(Quoted(s, hidden, escaped), false) == Cons(c, JsBody(Quoted(s[k..], hidden, escaped), false))
  {
    var rest := Quoted(s[1..], hidden, escaped);
    assert Quoted(s, hidden, escaped) == "\\0" + rest;
    WrittenStart(s[1..], hidden, escaped, false);
    assert s[1..][1..] == s[2..];
    WrittenStart(s[2..], hidden, escaped, false);
    var width;
    width, c := NulSwallows(rest);
    if width == 2 {
      assert s[2..][1..] == s[3..] && rest[2..] == rest[1..][1..];
    }
    k := width + 1;
  }

  /** A plain script always reads some text, and a shorter one exactly if a NUL meets an octal digit. */
  lemma {:induction false} SloppyDecodes(s: string, hidden: Hidden, escaped: bool)
    requires DigitsShown(hidden)
    ensures var r := JsBody(Quoted(s, hidden, escaped), false);
            && r.Some? && |r.value| <= |s|
            && (if NulThenDigit(s, false) then |r.value| < |s| else r.value == s)
    decreases |s|
  {
    if s != [] {
      NulThenDigitUnfolds(s, false);
      assert s == [s[0]] + s[1..];
      if s[0] == '\0' && StartsWithDigit(s[1..], false) {
        var k, c := SwallowedDecodes(s, hidden, escaped);
        SloppyDecodes(s[k..], hidden, escaped);
      } else {
        FirstDecodes(s, hidden, escaped, false);
        SloppyDecodes(s[1..], hidden, escaped);
      }
    }
  }

  lemma QuotedDecodes(s: string, hidden: Hidden, escaped: bool, strict: bool)
    requires DigitsShown(hidden)
    ensures JsDecode("\"" + Quoted(s, hidden, escaped), strict) == Some(s) <==> !NulThenDigit(s, strict)
  {
    assert ("\"" + Quoted(s, hidden, escaped))[1..] == Quoted(s, hidden, escaped);
    StrictDecodes(s, hidden, escaped);
    SloppyDecodes(s, hidden, escaped);
  }

  /**
   Main result: JavaScript reads back the message exactly when no NUL stands before a digit, of
   which a plain script minds only 0 to 7; and no `<` is written.
   */
  lemma ErrorRoundTrip(message: string, hidden: Hidden, strict: bool)
    requires DigitsShown(hidden)
    ensures JsDecode(ErrorLiteral(message, hidden), strict) == Some(message) <==> !NulThenDigit(message, strict)
    ensures '<' !in ErrorLiteral(message, hidden)
  {
    var body := DebugBody(message, hidden);
    EscapeLtConcat("\"" + body, "\"");
    EscapeLtConcat("\"", body);
    EscapeLtIdentity("\"");
    WrittenIs(message, hidden);
    assert ErrorLiteral(message, hidden) == "\"" + Quoted(message, hidden, true);
    QuotedDecodes(message, hidden, true, strict);
    NoLtLeft(DebugString(message, hidden));
  }

  lemma DebugRoundTrip(s: string, hidden: Hidden, strict: bool)
    requires DigitsShown(hidden)
    ensures JsDecode(DebugString(s, hidden), strict) == Some(s) <==> !NulThenDigit(s, strict)
  {
    WrittenIs(s, hidden);
    assert DebugString(s, hidden) == "\"" + Quoted(s, hidden, false);
    QuotedDecodes(s, hidden, false, strict);
  }
}
