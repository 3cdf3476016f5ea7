/**
 * web/web.go: the JSON error body, the check of a webhook's
 * `sha1=<hex>` signature (HMAC-SHA1, RFC 2104, over the body; hex as in
 * section 8 of RFC 4648) and the method gate of `ReadBody`.
 */
module Web {
  import opened Wrappers
  import opened Text

  newtype byte = x: int | 0 <= x < 256

  const ContentTypeJSON := "application/json"
  const ContentTypeHTML := "text/html"
  const ContentTypeEventStream := "text/event-stream"

  const ErrInvalidRequest := Error("request is invalid")
  const ErrResourceNotFound := Error("resource not found")
  const ErrStreamingNotSupported := Error("client does not support streaming")
  const ErrPayloadUnverified := Error("payload could not be verified")

  lemma WebErrorsDistinct()
    ensures ErrInvalidRequest != ErrResourceNotFound && ErrInvalidRequest != ErrStreamingNotSupported
    ensures ErrInvalidRequest != ErrPayloadUnverified && ErrResourceNotFound != ErrStreamingNotSupported
    ensures ErrResourceNotFound != ErrPayloadUnverified && ErrStreamingNotSupported != ErrPayloadUnverified
  {
  }

  // ---------------------------------------------------------------- JSON

  /**
   * Reads a JSON string (section 7 of RFC 8259) from just after its opening
   * quote: the text it stands for and what follows its closing quote. None
   * when it is not valid: it never ends, or holds a control character or a
   * `\` that does not start one of the escapes. A `\u` escape of half a
   * surrogate pair is not read.
   */
  function ReadString(m: string): Option<(string, string)>
    decreases |m|
  {
    if m == [] then None
    else if m[0] == '"' then Some(([], m[1..]))
    else if m[0] < ' ' then None
    else if m[0] != '\\' then Prepend(m[0], ReadString(m[1..]))
    else if |m| < 2 then None
    else if m[1] == 'u' then
      if |m| >= 6 && IsHex(m[2]) && IsHex(m[3]) && IsHex(m[4]) && IsHex(m[5]) then
        var v := ((HexValue(m[2]) * 16 + HexValue(m[3])) * 16 + HexValue(m[4])) * 16 + HexValue(m[5]);
        if 0xD800 <= v < 0xE000 then None
        else Prepend(v as char, ReadString(m[6..]))
      else None
    else
      match Unescaped(m[1])
      case None => None
      case Some(c) => Prepend(c, ReadString(m[2..]))
  }

  function Prepend(c: char, r: Option<(string, string)>): Option<(string, string)> {
    match r
    case None => None
    case Some((s, rest)) => Some(([c] + s, rest))
  }

  /** The character a two-character escape `\x` stands for. */
  function Unescaped(x: char): Option<char> {
    match x
    case '"' => Some('"')
    case '\\' => Some('\\')
    case '/' => Some('/')
    case 'b' => Some(8 as char)
    case 'f' => Some(12 as char)
    case 'n' => Some('\n')
    case 'r' => Some('\r')
    case 't' => Some('\t')
    case _ => None
  }

  /** What `JsonError` does to the error text: every `"` becomes `\"`. */
  function Escape(t: string): string {
    ReplaceAll(t, '"', "\\\"")
  }

  /** What `Escape` makes of one character. */
  function QuoteEscaped(c: char): string {
    if c == '"' then "\\\"" else [c]
  }

  /** Nothing but a `"` is changed: text without one, backslashes and control characters included, is kept as it is. */
  lemma EscapeWithoutQuote(t: string)
    requires '"' !in t
    ensures Escape(t) == t
  {
    ReplaceAllWithout(t, '"', "\\\"");
  }

  /** A character other than a backslash or a control character reads back from `QuoteEscaped`. */
  lemma QuoteEscapedReadsBack(c: char, rest: string)
    requires c != '\\' && c >= ' '
    ensures ReadString(QuoteEscaped(c) + rest) == Prepend(c, ReadString(rest))
  {
    var m := QuoteEscaped(c) + rest;
    if c == '"' {
      assert m[2..] == rest;
    } else {
      assert m[1..] == rest;
    }
  }

  /** `JsonError`'s body; a nil error gives an empty message. */
  function JsonErrorBody(err: Option<Error>): (body: string)
    ensures |body| >= 12 && "{\"error\":\"" <= body && body[|body| - 2..] == "\"}"
  {
    "{\"error\":\"" + (if err.Some? then Escape(err.value.text) else "") + "\"}"
  }

  /** A nil error gives `{"error":""}`. */
  lemma JsonErrorBodyOfNil()
    ensures JsonErrorBody(None) == "{\"error\":\"\"}"
  {
  }

  /**
   * Text without backslashes or control characters reads back from its
   * escaped form, and the string ends at the quote after it.
   */
  lemma {:induction false} EscapeReadsBack(t: string, after: string)
    requires forall i :: 0 <= i < |t| ==> t[i] != '\\' && t[i] >= ' '
    ensures ReadString(Escape(t) + "\"" + after) == Some((t, after))
  {
    if t == [] {
      assert Escape(t) + "\"" + after == "\"" + after;
    } else {
      EscapeReadsBack(t[1..], after);
      var tail := Escape(t[1..]) + "\"" + after;
      QuoteEscapedReadsBack(t[0], tail);
      assert Escape(t) == QuoteEscaped(t[0]) + Escape(t[1..]);
      assert Escape(t) + "\"" + after == QuoteEscaped(t[0]) + tail;
      assert [t[0]] + t[1..] == t;
    }
  }

  /**
   * An error text that is a single backslash is left as it is, so the body's
   * closing quote reads as an escaped quote and the string never ends.
   */
  lemma EscapeKeepsLoneBackslash()
    ensures Escape("\\") == "\\"
    ensures JsonErrorBody(Some(Error("\\"))) == "{\"error\":\"" + "\\\"}"
    ensures ReadString(Escape("\\") + "\"}") == None
  {
    var m := Escape("\\") + "\"}";
    assert m == "\\\"}";
    assert ReadString(m[2..][1..]) == None;
    assert ReadString(m[2..]) == None;
  }

  /** The escape of a JSON string's content, for any text: `"` and `\` are escaped, and so is every control character, as `\u00XX`. */
  function EscapeJson(t: string): (m: string)
    ensures |m| >= |t|
  {
    if t == [] then []
    else EscapeChar(t[0]) + EscapeJson(t[1..])
  }

  function EscapeChar(c: char): (e: string)
    ensures |e| >= 1
  {
    if c == '"' then "\\\""
    else if c == '\\' then "\\\\"
    else if c < ' ' then "\\u00" + [HexDigit(c as int / 16), HexDigit(c as int % 16)]
    else [c]
  }

  /** `JsonErrorBody` with the full escape. */
  function JsonErrorBodyEscaped(err: Option<Error>): string {
    "{\"error\":\"" + (if err.Some? then EscapeJson(err.value.text) else "") + "\"}"
  }

  /** Every character reads back from its escape, whatever follows it. */
  lemma EscapeCharReadsBack(c: char, rest: string)
    ensures ReadString(EscapeChar(c) + rest) == Prepend(c, ReadString(rest))
  {
    var m := EscapeChar(c) + rest;
    if c == '"' || c == '\\' {
      assert m[2..] == rest;
    } else if c < ' ' {
      var hi, lo := c as int / 16, c as int % 16;
      HexRoundTrip(hi);
      HexRoundTrip(lo);
      assert m[2] == '0' && m[3] == '0' && m[4] == HexDigit(hi) && m[5] == HexDigit(lo);
      assert m[6..] == rest;
    } else {
      assert m[1..] == rest;
    }
  }

  /**
   * Any text, backslashes and control characters included, reads back from
   * its full escape, and the string ends at the quote after it.
   */
  lemma {:induction false} EscapeJsonReadsBack(t: string, after: string)
    ensures ReadString(EscapeJson(t) + "\"" + after) == Some((t, after))
  {
    if t == [] {
      assert EscapeJson(t) + "\"" + after == "\"" + after;
    } else {
      EscapeJsonReadsBack(t[1..], after);
      EscapeCharReadsBack(t[0], EscapeJson(t[1..]) + "\"" + after);
      assert EscapeJson(t) + "\"" + after == EscapeChar(t[0]) + (EscapeJson(t[1..]) + "\"" + after);
      assert [t[0]] + t[1..] == t;
    }
  }

  // ---------------------------------------------------------------- hex

  predicate IsHex(c: char) {
    '0' <= c <= '9' || 'a' <= c <= 'f' || 'A' <= c <= 'F'
  }

  /** The value of a hex digit, in either case. */
  function HexValue(c: char): (v: nat)
    requires IsHex(c)
    ensures v < 16
  {
    if '0' <= c <= '9' then c as int - '0' as int
    else if 'a' <= c <= 'f' then c as int - 'a' as int + 10
    else c as int - 'A' as int + 10
  }

  /** The lower-case hex digit of a value below 16. */
  function HexDigit(v: int): (c: char)
    requires 0 <= v < 16
    ensures IsHex(c)
  {
    if v < 10 then ('0' as int + v) as char else ('a' as int + v - 10) as char
  }

  /** The upper-case hex digit of a value below 16. */
  function HexDigitUpper(v: int): (c: char)
    requires 0 <= v < 16
    ensures IsHex(c)
  {
    if v < 10 then ('0' as int + v) as char else ('A' as int + v - 10) as char
  }

  lemma HexRoundTrip(v: int)
    requires 0 <= v < 16
    ensures HexValue(HexDigit(v)) == v && HexValue(HexDigitUpper(v)) == v
  {
  }

  /**
   * `hex.Decode`: each pair of hex digits, in either case, gives one byte.
   * Text of odd length, or with any character that is not a hex digit,
   * fails.
   */
  function HexDecode(s: string): (r: Option<seq<byte>>)
    ensures r.Some? ==> |s| % 2 == 0 && |r.value| == |s| / 2
    ensures r.Some? <==> |s| % 2 == 0 && forall i :: 0 <= i < |s| ==> IsHex(s[i])
  {
    if s == [] then Some([])
    else if |s| == 1 || !IsHex(s[0]) || !IsHex(s[1]) then None
    else
      match HexDecode(s[2..])
      case None => None
      case Some(rest) => Some([(HexValue(s[0]) * 16 + HexValue(s[1])) as byte] + rest)
  }

  /** Lower-case hex, two digits per byte, as `hex.EncodeToString` writes it. */
  function HexEncode(b: seq<byte>): (s: string)
    ensures |s| == 2 * |b|
  {
    if b == [] then [] else [HexDigit(b[0] as int / 16), HexDigit(b[0] as int % 16)] + HexEncode(b[1..])
  }

  /** The same in upper case. */
  function HexEncodeUpper(b: seq<byte>): (s: string)
    ensures |s| == 2 * |b|
  {
    if b == [] then [] else [HexDigitUpper(b[0] as int / 16), HexDigitUpper(b[0] as int % 16)] + HexEncodeUpper(b[1..])
  }

  /** Decoding undoes encoding, in lower case and in upper case alike. */
  lemma {:induction false} HexDecodeEncode(b: seq<byte>)
    ensures HexDecode(HexEncode(b)) == Some(b)
    ensures HexDecode(HexEncodeUpper(b)) == Some(b)
  {
    if b != [] {
      HexDecodeEncode(b[1..]);
      HexRoundTrip(b[0] as int / 16);
      HexRoundTrip(b[0] as int % 16);
      assert HexEncode(b)[2..] == HexEncode(b[1..]);
      assert HexEncodeUpper(b)[2..] == HexEncodeUpper(b[1..]);
      assert [b[0]] + b[1..] == b;
    }
  }

  // ---------------------------------------------------------------- signature

  /** The signature prefix of the `X-Hub-Signature` header. */
  const SignaturePrefix := "sha1="

  /**
   * `VerifyBody`. The HMAC-SHA1 of the body under the key is the parameter
   * `hmac`; the signature's characters stand for its bytes.
   */
  function VerifyBody(b: seq<byte>, sig: string, key: seq<byte>, hmac: (seq<byte>, seq<byte>) -> seq<byte>): (err: Option<Error>)
    ensures err == None || err == Some(ErrPayloadUnverified)
  {
    if |sig| != 45 || !(SignaturePrefix <= sig) then Some(ErrPayloadUnverified)
    else
      match HexDecode(sig[5..])
      case None => Some(ErrPayloadUnverified)
      case Some(got) => if got == hmac(key, b) then None else Some(ErrPayloadUnverified)
  }

  /**
   * The body is accepted exactly when the signature is `sha1=` and 40 hex
   * digits that decode to the HMAC of the body.
   */
  lemma VerifyBodyAcceptsIff(b: seq<byte>, sig: string, key: seq<byte>, hmac: (seq<byte>, seq<byte>) -> seq<byte>)
    ensures VerifyBody(b, sig, key, hmac) == None
        <==> |sig| == 45 && sig[..5] == SignaturePrefix && HexDecode(sig[5..]) == Some(hmac(key, b))
  {
  }

  /** A signature of the wrong length, without the prefix, or with a character that is not a hex digit is rejected. */
  lemma VerifyBodyRejectsMalformed(b: seq<byte>, sig: string, key: seq<byte>, hmac: (seq<byte>, seq<byte>) -> seq<byte>)
    requires |sig| != 45 || !(SignaturePrefix <= sig) || exists i :: 5 <= i < |sig| && !IsHex(sig[i])
    ensures VerifyBody(b, sig, key, hmac) == Some(ErrPayloadUnverified)
  {
    if |sig| == 45 && SignaturePrefix <= sig {
      var i :| 5 <= i < |sig| && !IsHex(sig[i]);
      assert !IsHex(sig[5..][i - 5]);
    }
  }

  /** A body signed with the key is accepted, whichever case the signature's hex digits are in. */
  lemma SignedBodyAccepted(b: seq<byte>, key: seq<byte>, hmac: (seq<byte>, seq<byte>) -> seq<byte>)
    requires |hmac(key, b)| == 20
    ensures VerifyBody(b, SignaturePrefix + HexEncode(hmac(key, b)), key, hmac) == None
    ensures VerifyBody(b, SignaturePrefix + HexEncodeUpper(hmac(key, b)), key, hmac) == None
  {
    var mac := hmac(key, b);
    HexDecodeEncode(mac);
    assert (SignaturePrefix + HexEncode(mac))[5..] == HexEncode(mac);
    assert (SignaturePrefix + HexEncodeUpper(mac))[5..] == HexEncodeUpper(mac);
  }

  /** A body whose HMAC differs from the signed one is rejected. */
  lemma OtherBodyRejected(b: seq<byte>, signed: seq<byte>, key: seq<byte>, hmac: (seq<byte>, seq<byte>) -> seq<byte>)
    requires hmac(key, b) != signed
    ensures VerifyBody(b, SignaturePrefix + HexEncode(signed), key, hmac) == Some(ErrPayloadUnverified)
  {
    HexDecodeEncode(signed);
    assert (SignaturePrefix + HexEncode(signed))[5..] == HexEncode(signed);
  }

  // ---------------------------------------------------------------- request body

  /**
   * A request as `ReadBody` sees it: its method (`verb`) and its body, where a body
   * is either nil or what reading it to the end gives, the bytes or the
   * read error.
   */
  datatype Request = Request(verb: string, body: Option<Result<seq<byte>>>)

  predicate MethodWithBody(verb: string) {
    verb == "POST" || verb == "PUT" || verb == "PATCH"
  }

  /** `ReadBody`: the bytes (None for nil) and the error. */
  function ReadBody(r: Option<Request>): (res: (Option<seq<byte>>, Option<Error>))
    ensures res.1.None? || res.0.None?
  {
    if r.None? || !MethodWithBody(r.value.verb) then (None, Some(ErrInvalidRequest))
    else
      match r.value.body
      case None => (None, None)
      case Some(Fail(e)) => (None, Some(e))
      case Some(Ok(b)) => (Some(b), None)
  }

  /**
   * `ErrInvalidRequest` exactly for a nil request or a method other than
   * POST, PUT and PATCH (or the read error itself); a nil body is no error;
   * otherwise the bytes read.
   */
  lemma ReadBodyGate(r: Option<Request>)
    ensures r.None? || !MethodWithBody(r.value.verb) ==> ReadBody(r) == (None, Some(ErrInvalidRequest))
    ensures r.Some? && MethodWithBody(r.value.verb) && r.value.body.None? ==> ReadBody(r) == (None, None)
    ensures r.Some? && MethodWithBody(r.value.verb) && r.value.body.Some? ==>
              match r.value.body.value
              case Ok(b) => ReadBody(r) == (Some(b), None)
              case Fail(e) => ReadBody(r) == (None, Some(e))
    ensures ReadBody(r).1 == Some(ErrInvalidRequest) && !(r.Some? && r.value.body.Some? && r.value.body.value == Fail(ErrInvalidRequest))
            ==> r.None? || !MethodWithBody(r.value.verb)
  {
  }
}
