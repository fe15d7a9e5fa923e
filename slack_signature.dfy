/**
 * Slack request signing as the bridge checks it: a request is authentic when
 * its `x-slack-signature` header equals `v0=` followed by the hex HMAC-SHA256,
 * under the signing secret, of `v0:<timestamp>:<body>`, and its timestamp is
 * within five minutes of the clock. The HMAC itself is a parameter.
 */
module SlackSignature {
  import opened Wrappers
  import opened Text
  import Json

  /** The outcome of `verifySlackRequest`: `Threw` is the exception `timingSafeEqual` raises on a length mismatch. */
  datatype Verdict = Accepted | Rejected | Threw

  const ReplayWindowSeconds := 300

  /** The value of a string of hexadecimal digits. */
  function HexDigitsValue(s: string): nat
    requires forall i :: 0 <= i < |s| ==> Json.IsHex(s[i])
    decreases |s|
  {
    if s == [] then 0 else HexDigitsValue(s[..|s| - 1]) * 16 + Json.HexValue(s[|s| - 1])
  }

  /** JavaScript `parseInt(s)` with no radix; `None` is NaN. */
  function ParseIntJs(s: string): Option<int> {
    ParseSigned(TrimStart(s, IsJsSpace))
  }

  /** `parseInt` after the leading whitespace: an optional sign, then the digits. */
  function ParseSigned(t: string): Option<int> {
    var sign: int := if t != [] && t[0] == '-' then -1 else 1;
    var u := if t != [] && (t[0] == '-' || t[0] == '+') then t[1..] else t;
    var magnitude :=
      if |u| >= 2 && u[0] == '0' && (u[1] == 'x' || u[1] == 'X') then HexPrefix(u[2..]) else DecimalPrefix(u);
    if magnitude.None? then None else Some(sign * magnitude.value)
  }

  /** The value of the leading decimal digits; `None` when there are none. */
  function DecimalPrefix(u: string): Option<nat> {
    var k := RunLength(u, IsDigit);
    if k == 0 then None else Some(DigitsValue(u[..k]))
  }

  /** The value of the leading hexadecimal digits; `None` when there are none. */
  function HexPrefix(u: string): Option<nat> {
    var k := RunLength(u, Json.IsHex);
    if k == 0 then None else Some(HexDigitsValue(u[..k]))
  }

  lemma DigitsUntrimmed(d: string)
    requires d != [] && IsDigit(d[0])
    ensures TrimStart(d, IsJsSpace) == d
  {
    assert !IsJsSpace(d[0]);
  }

  lemma DigitsRun(d: string)
    requires forall i :: 0 <= i < |d| ==> IsDigit(d[i])
    ensures RunLength(d, IsDigit) == |d|
  {
  }

  /** The decimal seconds Slack sends parse to their value. */
  lemma DecimalTimestamp(n: nat)
    ensures ParseIntJs(NatToString(n)) == Some(n)
  {
    ParseDigits(NatToString(n));
    NatToStringValue(n);
  }

  /** A string of decimal digits parses to its value. */
  lemma ParseDigits(d: string)
    requires d != [] && forall i :: 0 <= i < |d| ==> IsDigit(d[i])
    ensures ParseIntJs(d) == Some(DigitsValue(d))
  {
    ParseSignedDigits(d);
    DigitsUntrimmed(d);
  }

  lemma ParseSignedDigits(d: string)
    requires d != [] && forall i :: 0 <= i < |d| ==> IsDigit(d[i])
    ensures ParseSigned(d) == Some(DigitsValue(d))
  {
    assert d[0] != '-' && d[0] != '+' by {
      assert IsDigit(d[0]);
    }
    assert !(|d| >= 2 && d[0] == '0' && (d[1] == 'x' || d[1] == 'X')) by {
      if |d| >= 2 {
        assert IsDigit(d[1]);
      }
    }
    DecimalPrefixOfDigits(d);
  }

  /** The leading digits of a string of digits are all of it. */
  lemma DecimalPrefixOfDigits(d: string)
    requires d != [] && forall i :: 0 <= i < |d| ==> IsDigit(d[i])
    ensures DecimalPrefix(d) == Some(DigitsValue(d))
  {
    DigitsRun(d);
    assert d[..|d|] == d;
  }

  /** Text with no digit where a number must start parses to NaN. */
  lemma NotANumber(s: string)
    requires s == [] || (!IsJsSpace(s[0]) && !IsDigit(s[0]) && s[0] != '-' && s[0] != '+')
    ensures ParseIntJs(s) == None
  {
    assert TrimStart(s, IsJsSpace) == s;
    assert RunLength(s, IsDigit) == 0;
  }

  function Abs(x: int): nat { if x < 0 then -x else x }

  /** `Math.abs(now - parseInt(timestamp)) > 300` is false: NaN compares false, so a non-numeric timestamp passes. */
  predicate InWindow(timestamp: string, nowSeconds: int) {
    match ParseIntJs(timestamp)
    case None => true
    case Some(t) => Abs(nowSeconds - t) <= ReplayWindowSeconds
  }

  function BaseString(timestamp: string, body: string): string {
    "v0:" + timestamp + ":" + body
  }

  function ExpectedSignature(secret: string, timestamp: string, body: string, hmacHex: (string, string) -> string): string {
    "v0=" + hmacHex(secret, BaseString(timestamp, body))
  }

  predicate Present(h: Option<string>) { h.Some? && h.value != "" }

  /**
   * `verifySlackRequest`. Without a signing secret every request is accepted.
   * With one, a request is accepted exactly when both headers are present,
   * the timestamp passes the replay window and the signature equals the
   * expected one; a signature whose UTF-8 length differs from the expected
   * one makes `timingSafeEqual` throw.
   */
  function VerifySlackRequest(secret: string, timestamp: Option<string>, signature: Option<string>,
                              nowMs: nat, body: string, hmacHex: (string, string) -> string): (v: Verdict)
    ensures secret == "" ==> v == Accepted
    ensures secret != "" ==>
      (v == Accepted <==>
        Present(timestamp) && Present(signature) && InWindow(timestamp.value, nowMs / 1000)
        && signature.value == ExpectedSignature(secret, timestamp.value, body, hmacHex))
    ensures v == Threw <==>
      secret != "" && Present(timestamp) && Present(signature) && InWindow(timestamp.value, nowMs / 1000)
      && Utf8Length(signature.value) != Utf8Length(ExpectedSignature(secret, timestamp.value, body, hmacHex))
  {
    if secret == "" then Accepted
    else if !Present(timestamp) || !Present(signature) then Rejected
    else if !InWindow(timestamp.value, nowMs / 1000) then Rejected
    else
      var expected := ExpectedSignature(secret, timestamp.value, body, hmacHex);
      if Utf8Length(expected) != Utf8Length(signature.value) then Threw
      else if expected == signature.value then Accepted
      else Rejected
  }

  /** A request whose timestamp parses to more than 300 seconds away from the clock is rejected, whatever it is signed with. */
  lemma StaleRequestRejected(secret: string, timestamp: string, signature: Option<string>,
                             nowMs: nat, body: string, hmacHex: (string, string) -> string, t: int)
    requires secret != "" && ParseIntJs(timestamp) == Some(t) && Abs(nowMs / 1000 - t) > ReplayWindowSeconds
    ensures VerifySlackRequest(secret, Some(timestamp), signature, nowMs, body, hmacHex) == Rejected
  {
  }

  /** A timestamp `parseInt` reads as NaN is never outside the window: the verdict does not depend on the clock. */
  lemma NonNumericTimestampIgnoresClock(secret: string, timestamp: string, signature: Option<string>,
                                        nowMs: nat, laterMs: nat, body: string, hmacHex: (string, string) -> string)
    requires ParseIntJs(timestamp) == None
    ensures VerifySlackRequest(secret, Some(timestamp), signature, nowMs, body, hmacHex)
         == VerifySlackRequest(secret, Some(timestamp), signature, laterMs, body, hmacHex)
  {
  }
}
