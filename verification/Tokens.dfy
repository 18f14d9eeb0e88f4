/** The page token of the grant synchroniser: two strings printed as a JSON object
    (pkg/client/helpers.go), with the string escapes of section 7 of RFC 8259. */
module Tokens {
  import opened Text

  /** The value of `JobPermissionPaginationTokens`. */
  datatype TokenPair = TokenPair(job: string, future: string)

  const UNSTARTED: TokenPair := TokenPair("", "")

  // ---- strings ----

  function HexChar(d: nat): char
    requires d < 16
  {
    if d < 10 then ('0' as int + d) as char else ('a' as int + (d - 10)) as char
  }

  function HexValue(c: char): Option<nat> {
    if '0' <= c <= '9' then Some(c as int - '0' as int)
    else if 'a' <= c <= 'f' then Some(c as int - 'a' as int + 10)
    else if 'A' <= c <= 'F' then Some(c as int - 'A' as int + 10)
    else None
  }

  function UnicodeEscape(n: nat): string
    requires n < 0x10000
  {
    "\\u" + [HexChar(n / 0x1000), HexChar(n / 0x100 % 16), HexChar(n / 16 % 16), HexChar(n % 16)]
  }

  /** `json.Marshal` on one character: the two-character escapes, then control characters, `<`,
      `>`, `&` and the two line separators as `\u` escapes; all others unchanged. */
  function EscapeChar(c: char): string {
    if c == '"' then "\\\""
    else if c == '\\' then "\\\\"
    else if c == '\U{8}' then "\\b"
    else if c == '\U{C}' then "\\f"
    else if c == '\n' then "\\n"
    else if c == '\r' then "\\r"
    else if c == '\t' then "\\t"
    else if c < ' ' || c == '<' || c == '>' || c == '&' || c == '\U{2028}' || c == '\U{2029}' then UnicodeEscape(c as int)
    else [c]
  }

  function Escape(s: string): string {
    if s == "" then "" else EscapeChar(s[0]) + Escape(s[1..])
  }

  function Pow16(k: nat): nat { if k == 0 then 1 else 16 * Pow16(k - 1) }

  /** The number that hexadecimal digits write. */
  function HexNumber(s: string): (r: Option<nat>)
    ensures r.Some? ==> r.value < Pow16(|s|)
  {
    if s == "" then Some(0)
    else match (HexNumber(s[..|s| - 1]), HexValue(s[|s| - 1]))
      case (Some(front), Some(last)) => Some(16 * front + last)
      case _ => None
  }

  lemma HexNumberLast(s: string, c: char)
    ensures HexNumber(s + [c]) ==
            if HexNumber(s).Some? && HexValue(c).Some? then Some(16 * HexNumber(s).value + HexValue(c).value) else None
  {
    assert (s + [c])[..|s|] == s;
  }

  lemma HexNumberOfFour(a: char, b: char, c: char, d: char)
    ensures HexNumber([a, b, c, d]) ==
            if HexValue(a).Some? && HexValue(b).Some? && HexValue(c).Some? && HexValue(d).Some?
            then Some(HexValue(a).value * 0x1000 + HexValue(b).value * 0x100 + HexValue(c).value * 16 + HexValue(d).value)
            else None
  {
    var front, back := [] + [a] + [b], [a, b] + [c] + [d];
    HexNumberLastTwo([], a, b);
    HexNumberLastTwo([a, b], c, d);
    assert front == [a, b] && back == [a, b, c, d];
  }

  lemma HexNumberLastTwo(s: string, c: char, d: char)
    ensures HexNumber(s + [c] + [d]) ==
            if HexNumber(s).Some? && HexValue(c).Some? && HexValue(d).Some?
            then Some(HexNumber(s).value * 0x100 + HexValue(c).value * 16 + HexValue(d).value) else None
  {
    HexNumberLast(s, c);
    HexNumberLast(s + [c], d);
  }

  /** The four hexadecimal digits after `\u`. */
  function HexQuad(s: string): (r: Option<nat>)
    ensures r.Some? ==> r.value < 0x10000
  {
    if |s| < 4 then None
    else
      assert Pow16(4) == 0x10000;
      HexNumber(s[..4])
  }

  const REPLACEMENT: char := '\U{FFFD}'

  /** The character of a `\u` escape whose value is `n`, and the text after it: a surrogate joins
      the low surrogate escaped next, or else reads as the replacement character. */
  function UnicodeChar(n: nat, rest: string): (r: (char, string))
    requires n < 0x10000
    ensures |r.1| <= |rest|
  {
    if n < 0xD800 || 0xE000 <= n then (n as char, rest)
    else
      match (if "\\u" <= rest then HexQuad(rest[2..]) else None)
      case Some(low) =>
        if n < 0xDC00 && 0xDC00 <= low < 0xE000 then
          ((0x10000 + (n - 0xD800) * 0x400 + (low - 0xDC00)) as char, rest[6..])
        else (REPLACEMENT, rest)
      case None => (REPLACEMENT, rest)
  }

  /** One character of a JSON string body, and the text after it. */
  function ReadChar(s: string): (r: Option<(char, string)>)
    ensures r.Some? ==> |r.value.1| < |s|
  {
    if s == "" || s[0] < ' ' || s[0] == '"' then None
    else if s[0] != '\\' then Some((s[0], s[1..]))
    else if |s| < 2 then None
    else
      var rest := s[2..];
      match s[1]
      case '"' => Some(('"', rest))
      case '\\' => Some(('\\', rest))
      case '/' => Some(('/', rest))
      case 'b' => Some(('\U{8}', rest))
      case 'f' => Some(('\U{C}', rest))
      case 'n' => Some(('\n', rest))
      case 'r' => Some(('\r', rest))
      case 't' => Some(('\t', rest))
      case 'u' =>
        (match HexQuad(rest)
         case Some(n) => Some(UnicodeChar(n, rest[4..]))
         case None => None)
      case _ => None
  }

  /** A JSON string body up to its closing quote, and the text after the quote. */
  function Unescape(s: string): Option<(string, string)> {
    if s != "" && s[0] == '"' then Some(("", s[1..]))
    else match ReadChar(s)
      case None => None
      case Some((c, rest)) =>
        match Unescape(rest)
        case None => None
        case Some((body, after)) => Some(([c] + body, after))
  }

  lemma HexDigitsOf(n: nat)
    requires n < 0x10000
    ensures n == n / 0x1000 * 0x1000 + n / 0x100 % 16 * 0x100 + n / 16 % 16 * 16 + n % 16
  {
    assert n / 0x100 / 16 == n / 0x1000 && n / 16 / 16 == n / 0x100;
  }

  lemma HexQuadReads(a: nat, b: nat, c: nat, d: nat, rest: string)
    requires a < 16 && b < 16 && c < 16 && d < 16
    ensures HexQuad([HexChar(a), HexChar(b), HexChar(c), HexChar(d)] + rest) ==
            Some(a * 0x1000 + b * 0x100 + c * 16 + d)
  {
    HexNumberOfFour(HexChar(a), HexChar(b), HexChar(c), HexChar(d));
    var quad := [HexChar(a), HexChar(b), HexChar(c), HexChar(d)];
    assert (quad + rest)[..4] == quad;
  }

  lemma UnicodeEscapeReads(n: nat, rest: string)
    requires n < 0xD800 || 0xE000 <= n < 0x10000
    ensures ReadChar(UnicodeEscape(n) + rest) == Some((n as char, rest))
  {
    EscapedValue(n, rest);
  }

  /** A hexadecimal digit in either case, and nothing else. */
  lemma HexValueExactly(c: char, d: nat)
    ensures HexValue(c) == Some(d) <==> d < 16 && (c == "0123456789abcdef"[d] || c == "0123456789ABCDEF"[d])
  {
  }

  const HEX_DIGITS: string := "0123456789abcdefABCDEF"

  lemma HexDigitsOnly(c: char)
    ensures HexValue(c).Some? <==> c in HEX_DIGITS
  {
    assert HEX_DIGITS[0] == '0' && HEX_DIGITS[10] == 'a' && HEX_DIGITS[16] == 'A';
    if '0' <= c <= '9' { assert HEX_DIGITS[c as int - '0' as int] == c; }
    if 'a' <= c <= 'f' { assert HEX_DIGITS[10 + (c as int - 'a' as int)] == c; }
    if 'A' <= c <= 'F' { assert HEX_DIGITS[16 + (c as int - 'A' as int)] == c; }
  }

  /** What section 7 of RFC 8259 allows at the start of a body: an unescaped character, which is no control
      character, an escape of one of eight characters, or `u` with four hexadecimal digits. */
  lemma ReadableExactly(s: string)
    ensures ReadChar(s).Some? <==>
            s != "" && s[0] >= ' ' && s[0] != '"' &&
            (s[0] == '\\' ==>
               |s| >= 2 && (s[1] in {'"', '\\', '/', 'b', 'f', 'n', 'r', 't'} ||
                            (s[1] == 'u' && |s| >= 6 && forall i | 2 <= i < 6 :: s[i] in HEX_DIGITS)))
  {
    if |s| >= 2 {
      HexQuadExactly(s[2..]);
      assert |s| >= 6 ==> forall i | 2 <= i < 6 :: s[i] == s[2..][i - 2];
    }
  }

  lemma HexQuadExactly(s: string)
    ensures HexQuad(s).Some? <==> |s| >= 4 && forall i | 0 <= i < 4 :: s[i] in HEX_DIGITS
  {
    if |s| >= 4 {
      HexDigitsOnly(s[0]);
      HexDigitsOnly(s[1]);
      HexDigitsOnly(s[2]);
      HexDigitsOnly(s[3]);
      HexNumberOfFour(s[0], s[1], s[2], s[3]);
      assert s[..4] == [s[0], s[1], s[2], s[3]];
    }
  }

  /** Two escaped surrogates read as the character beyond the first plane that they stand for, and one alone
      as the replacement character. */
  lemma SurrogatesRead(n: nat, rest: string)
    requires 0x10000 <= n < 0x110000
    ensures var high, low := 0xD800 + (n - 0x10000) / 0x400, 0xDC00 + (n - 0x10000) % 0x400;
            && ReadChar(UnicodeEscape(high) + (UnicodeEscape(low) + rest)) == Some((n as char, rest))
            && ReadChar(UnicodeEscape(low) + rest) == Some((REPLACEMENT, rest))
            && (!("\\u" <= rest) ==> ReadChar(UnicodeEscape(high) + rest) == Some((REPLACEMENT, rest)))
  {
    var high, low := 0xD800 + (n - 0x10000) / 0x400, 0xDC00 + (n - 0x10000) % 0x400;
    EscapedValue(high, UnicodeEscape(low) + rest);
    EscapedValue(high, rest);
    EscapedValue(low, rest);
    assert (UnicodeEscape(low) + rest)[6..] == rest;
  }

  lemma EscapedValue(n: nat, rest: string)
    requires n < 0x10000
    ensures var s := UnicodeEscape(n) + rest;
            "\\u" <= s && HexQuad(s[2..]) == Some(n) && s[2..][4..] == rest && ReadChar(s) == Some(UnicodeChar(n, rest))
  {
    var s := UnicodeEscape(n) + rest;
    var a, b, c, d := n / 0x1000, n / 0x100 % 16, n / 16 % 16, n % 16;
    var quad := [HexChar(a), HexChar(b), HexChar(c), HexChar(d)];
    assert s[2..] == quad + rest;
    assert (quad + rest)[4..] == rest;
    HexDigitsOf(n);
    HexQuadReads(a, b, c, d, rest);
  }

  lemma SlashReads(rest: string)
    ensures ReadChar("\\/" + rest) == Some(('/', rest))
  {
    assert ("\\/" + rest)[2..] == rest;
  }

  lemma EscapeCharReads(c: char, rest: string)
    ensures EscapeChar(c) + rest != "" && (EscapeChar(c) + rest)[0] != '"'
    ensures ReadChar(EscapeChar(c) + rest) == Some((c, rest))
  {
    var s := EscapeChar(c) + rest;
    if |EscapeChar(c)| == 6 {
      UnicodeEscapeReads(c as int, rest);
    } else if |EscapeChar(c)| == 2 {
      assert s[2..] == rest;
    } else {
      assert s[1..] == rest;
    }
  }

  lemma {:induction false} UnescapeEscape(s: string, rest: string)
    ensures Unescape(Escape(s) + "\"" + rest) == Some((s, rest))
  {
    if s == "" {
      UnescapeEnd(rest);
      assert Escape(s) + "\"" + rest == "\"" + rest;
    } else {
      var tail := Escape(s[1..]) + "\"" + rest;
      Regroup(EscapeChar(s[0]), Escape(s[1..]), "\"", rest);
      UnescapeEscape(s[1..], rest);
      UnescapeStep(s[0], tail, s[1..], rest);
      assert [s[0]] + s[1..] == s;
    }
  }

  lemma UnescapeEnd(rest: string)
    ensures Unescape("\"" + rest) == Some(("", rest))
  {
    assert ("\"" + rest)[1..] == rest;
  }

  lemma UnescapeStep(c: char, tail: string, body: string, after: string)
    requires Unescape(tail) == Some((body, after))
    ensures Unescape(EscapeChar(c) + tail) == Some(([c] + body, after))
  {
    EscapeCharReads(c, tail);
  }

  lemma Regroup(a: string, b: string, c: string, d: string)
    ensures a + b + c + d == a + (b + c + d)
  {
  }

  /** The characters that are printed as they stand. */
  predicate Plain(c: char) {
    c >= ' ' && c !in {'"', '\\', '<', '>', '&', '\U{2028}', '\U{2029}'}
  }

  predicate AllPlain(s: string) { forall c | c in s :: Plain(c) }

  lemma PlainChar(s: string)
    requires s != "" && AllPlain(s)
    ensures EscapeChar(s[0]) == [s[0]] && AllPlain(s[1..]) && s == [s[0]] + s[1..]
  {
    assert s[0] in s;
  }

  lemma {:induction false} EscapePlain(s: string)
    requires AllPlain(s)
    ensures Escape(s) == s
  {
    if s != "" {
      PlainChar(s);
      EscapePlain(s[1..]);
    }
  }

  lemma EscapeCharSafe(c: char)
    ensures forall x | x in EscapeChar(c) :: Plain(x) || x == '\\' || x == '"'
    ensures c != '"' ==> '"' !in EscapeChar(c)
  {
  }

  /** The printed text has no control character, bracket, ampersand or line separator, whatever was printed. */
  lemma {:induction false} EscapeSafe(s: string)
    ensures forall x | x in Escape(s) :: Plain(x) || x == '\\' || x == '"'
  {
    if s != "" {
      EscapeCharSafe(s[0]);
      EscapeSafe(s[1..]);
    }
  }

  lemma HexQuadExtends(s: string, x: string)
    requires HexQuad(s).Some?
    ensures HexQuad(s + x) == HexQuad(s)
  {
    assert (s + x)[..4] == s[..4];
  }

  /** A body that can be read does not end inside an escape. */
  lemma BodyAhead(rest: string, x: string)
    requires Unescape(rest).Some?
    ensures "\\u" <= rest + x <==> "\\u" <= rest
    ensures "\\u" <= rest ==> HexQuad(rest[2..]).Some?
  {
    assert rest != "" && (rest[0] == '\\' ==> |rest| >= 2);
    assert (rest + x)[0] == rest[0] && (|rest| >= 2 ==> (rest + x)[1] == rest[1]);
    assert "\\u" <= rest ==> ReadChar(rest).Some?;
  }

  /** The look-ahead of a surrogate stays inside a body that has its closing quote. */
  lemma UnicodeCharExtends(n: nat, rest: string, x: string)
    requires n < 0x10000 && Unescape(UnicodeChar(n, rest).1).Some?
    ensures UnicodeChar(n, rest + x) == (UnicodeChar(n, rest).0, UnicodeChar(n, rest).1 + x)
  {
    if UnicodeChar(n, rest).1 == rest {
      BodyAhead(rest, x);
    }
    if "\\u" <= rest {
      assert (rest + x)[2..] == rest[2..] + x;
      HexQuadExtends(rest[2..], x);
      if |rest| >= 6 {
        assert (rest + x)[6..] == rest[6..] + x;
      }
    }
  }

  lemma ReadUnicode(s: string, n: nat, rest: string)
    requires "\\u" <= s && HexQuad(s[2..]) == Some(n) && s[2..][4..] == rest
    ensures ReadChar(s) == Some(UnicodeChar(n, rest))
  {
  }

  lemma QuadExtends(s: string, x: string, n: nat, rest: string)
    requires "\\u" <= s && HexQuad(s[2..]) == Some(n) && s[2..][4..] == rest
    ensures "\\u" <= s + x && HexQuad((s + x)[2..]) == Some(n) && (s + x)[2..][4..] == rest + x
  {
    assert (s + x)[2..] == s[2..] + x;
    HexQuadExtends(s[2..], x);
    assert (s[2..] + x)[4..] == rest + x;
  }

  lemma ReadUnicodeExtends(s: string, x: string, n: nat, rest: string)
    requires "\\u" <= s && HexQuad(s[2..]) == Some(n) && s[2..][4..] == rest
    requires Unescape(UnicodeChar(n, rest).1).Some?
    ensures ReadChar(s + x) == Some((UnicodeChar(n, rest).0, UnicodeChar(n, rest).1 + x))
  {
    QuadExtends(s, x, n, rest);
    ReadUnicode(s + x, n, rest + x);
    UnicodeCharExtends(n, rest, x);
  }

  lemma ReadShortExtends(s: string, x: string)
    requires ReadChar(s).Some? && !("\\u" <= s)
    ensures ReadChar(s + x) == Some((ReadChar(s).value.0, ReadChar(s).value.1 + x))
  {
    assert (s + x)[1..] == s[1..] + x;
    assert |s| >= 2 ==> (s + x)[2..] == s[2..] + x;
  }

  lemma ReadCharExtends(s: string, x: string)
    requires ReadChar(s).Some? && Unescape(ReadChar(s).value.1).Some?
    ensures ReadChar(s + x) == Some((ReadChar(s).value.0, ReadChar(s).value.1 + x))
  {
    if "\\u" <= s {
      ReadUnicode(s, HexQuad(s[2..]).value, s[2..][4..]);
      ReadUnicodeExtends(s, x, HexQuad(s[2..]).value, s[2..][4..]);
    } else {
      ReadShortExtends(s, x);
    }
  }

  /** What a body reads does not depend on the text after its closing quote. */
  lemma {:induction false} UnescapeExtends(s: string, x: string)
    requires Unescape(s).Some?
    ensures Unescape(s + x) == Some((Unescape(s).value.0, Unescape(s).value.1 + x))
    decreases |s|
  {
    if s[0] == '"' {
      assert (s + x)[1..] == s[1..] + x;
    } else {
      ReadCharExtends(s, x);
      UnescapeExtends(ReadChar(s).value.1, x);
    }
  }

  // ---- the token object ----

  const OPENING: string := "{\"JobPermissionsToken\":\""
  const MIDDLE: string := ",\"FutureJobPermissionsToken\":\""

  /** `SerializeTokens` */
  function Serialize(t: TokenPair): string {
    OPENING + Escape(t.job) + "\"" + MIDDLE + Escape(t.future) + "\"" + "}"
  }

  /** A string value after a fixed text, and what follows its closing quote. */
  function ReadAfter(text: string, key: string): Option<(string, string)> {
    if key <= text then Unescape(text[|key|..]) else None
  }

  /** `DeserializeTokens`, on the texts that `SerializeTokens` prints and on the empty text. */
  function Deserialize(text: string): Option<TokenPair> {
    if text == "" then Some(UNSTARTED)
    else match ReadAfter(text, OPENING)
      case None => None
      case Some((job, rest)) =>
        match ReadAfter(rest, MIDDLE)
        case None => None
        case Some((future, end)) => if end == "}" then Some(TokenPair(job, future)) else None
  }

  lemma ReadAfterReads(key: string, s: string, rest: string)
    ensures ReadAfter(key + (Escape(s) + "\"" + rest), key) == Some((s, rest))
  {
    var text := key + (Escape(s) + "\"" + rest);
    assert text[|key|..] == Escape(s) + "\"" + rest;
    UnescapeEscape(s, rest);
  }

  /** Main result: every pair of strings survives the token, and no pair prints as the empty token. */
  lemma TokenRoundTrip(t: TokenPair)
    ensures Deserialize(Serialize(t)) == Some(t)
    ensures Serialize(t) != ""
  {
    var rest := MIDDLE + (Escape(t.future) + "\"" + "}");
    SerializeShape(OPENING, Escape(t.job), MIDDLE, Escape(t.future));
    ReadAfterReads(OPENING, t.job, rest);
    ReadAfterReads(MIDDLE, t.future, "}");
  }

  lemma SerializeShape(a: string, b: string, c: string, d: string)
    ensures a + b + "\"" + c + d + "\"" + "}" == a + (b + "\"" + (c + (d + "\"" + "}")))
  {
  }

  /** On every text that begins like a token: nothing may follow it. */
  lemma NothingFollows(text: string, x: string)
    requires text != "" && Deserialize(text).Some? && x != ""
    ensures Deserialize(text + x) == None
  {
    ReadAfterExtends(text, OPENING, x);
    var rest := ReadAfter(text, OPENING).value.1;
    ReadAfterExtends(rest, MIDDLE, x);
    assert ReadAfter(rest, MIDDLE).value.1 + x != "}";
  }

  lemma ReadAfterExtends(text: string, key: string, x: string)
    requires ReadAfter(text, key).Some?
    ensures ReadAfter(text + x, key) == Some((ReadAfter(text, key).value.0, ReadAfter(text, key).value.1 + x))
  {
    assert (text + x)[|key|..] == text[|key|..] + x;
    UnescapeExtends(text[|key|..], x);
  }

  /** Main result, rejection: a token that is cut short, or that anything follows, cannot be read, and
      neither can a text that does not begin as a token does. */
  lemma DamagedTokens(t: TokenPair, k: nat, x: string, text: string)
    requires 0 < k < |Serialize(t)| && x != ""
    ensures Deserialize(Serialize(t)[..k]) == None
    ensures Deserialize(Serialize(t) + x) == None
    ensures text != "" && !("{\"JobPermissionsToken\":\"" <= text) ==> Deserialize(text) == None
  {
    TokenRoundTrip(t);
    NothingFollows(Serialize(t), x);
    NoOpening(text);
    var front, back := Serialize(t)[..k], Serialize(t)[k..];
    assert front + back == Serialize(t);
    CutShort(front, back);
  }

  lemma NoOpening(text: string)
    ensures text != "" && !("{\"JobPermissionsToken\":\"" <= text) ==> Deserialize(text) == None
  {
  }

  lemma CutShort(front: string, back: string)
    requires front != "" && back != "" && Deserialize(front + back).Some?
    ensures Deserialize(front) == None
  {
    if Deserialize(front).Some? {
      NothingFollows(front, back);
    }
  }

  /** The printed text itself, for two strings that need no escape. */
  lemma TokenText(job: string, future: string)
    requires AllPlain(job) && AllPlain(future)
    ensures Serialize(TokenPair(job, future)) ==
            "{\"JobPermissionsToken\":\"" + job + "\",\"FutureJobPermissionsToken\":\"" + future + "\"}"
  {
    EscapePlain(job);
    EscapePlain(future);
    TextJoined(OPENING, job, MIDDLE, future);
    ClosingTexts();
  }

  lemma ClosingTexts()
    ensures "\"" + MIDDLE == "\",\"FutureJobPermissionsToken\":\"" && "\"" + "}" == "\"}"
  {
  }

  lemma TextJoined(a: string, b: string, c: string, d: string)
    ensures a + b + "\"" + c + d + "\"" + "}" == a + b + ("\"" + c) + d + ("\"" + "}")
  {
  }

  lemma SerializeInjective(t: TokenPair, u: TokenPair)
    requires Serialize(t) == Serialize(u)
    ensures t == u
  {
    TokenRoundTrip(t);
    TokenRoundTrip(u);
  }
}
