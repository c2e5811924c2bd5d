/**
  Client address extraction from proxy headers (src/lib/utils/ip.ts).

  Headers are a map from lower-case header name to value; a missing header
  and an empty value are both falsy, as in JavaScript.
*/
module ClientIp {
  import opened Types

  const ForwardedFor: string := "x-forwarded-for"
  const CfConnectingIp: string := "cf-connecting-ip"
  const RealIp: string := "x-real-ip"
  /** The address reported when no header names the client. */
  const Loopback: string := "127.0.0.1"

  /** Headers.get: the value of a header, or null when it is absent. */
  function Header(headers: map<string, string>, name: string): Option<string> {
    if name in headers then Some(headers[name]) else None
  }

  /** The characters String.prototype.trim removes: ECMAScript WhiteSpace and LineTerminator. */
  predicate IsWhitespace(c: char) {
    || c == '\t' || c == '\n' || c == '\U{000B}' || c == '\U{000C}' || c == '\r' || c == ' '
    || c == '\U{00A0}' || c == '\U{1680}' || ('\U{2000}' <= c <= '\U{200A}')
    || c == '\U{2028}' || c == '\U{2029}' || c == '\U{202F}' || c == '\U{205F}'
    || c == '\U{3000}' || c == '\U{FEFF}'
  }

  /** The index of the first comma at or after `from`, or |s| when there is none. */
  function CommaFrom(s: string, from: nat): (c: nat)
    requires from <= |s|
    ensures from <= c <= |s|
    ensures forall i :: from <= i < c ==> s[i] != ','
    ensures c < |s| ==> s[c] == ','
    decreases |s| - from
  {
    if from == |s| || s[from] == ',' then from else CommaFrom(s, from + 1)
  }

  /** split(",")[0]: the text before the first comma, or all of it when there is none. */
  function FirstSegment(s: string): (r: string)
    ensures ',' !in r
    ensures r <= s
    ensures |r| < |s| ==> s[|r|] == ','
  {
    s[..CommaFrom(s, 0)]
  }

  /** The index of the first character at or after `from` that is not whitespace, or |s|. */
  function SkipFrom(s: string, from: nat): (k: nat)
    requires from <= |s|
    ensures from <= k <= |s|
    ensures forall i :: from <= i < k ==> IsWhitespace(s[i])
    ensures k == |s| || !IsWhitespace(s[k])
    decreases |s| - from
  {
    if from < |s| && IsWhitespace(s[from]) then SkipFrom(s, from + 1) else from
  }

  /** How much of s[..upTo] is left once its trailing whitespace is dropped. */
  function KeepUpTo(s: string, upTo: nat): (k: nat)
    requires upTo <= |s|
    ensures k <= upTo
    ensures forall i :: k <= i < upTo ==> IsWhitespace(s[i])
    ensures k == 0 || !IsWhitespace(s[k - 1])
  {
    if upTo > 0 && IsWhitespace(s[upTo - 1]) then KeepUpTo(s, upTo - 1) else upTo
  }

  /** trimStart: drops the leading whitespace. */
  function TrimStart(s: string): (r: string)
    ensures |r| <= |s| && r == s[|s| - |r|..]
    ensures forall i :: 0 <= i < |s| - |r| ==> IsWhitespace(s[i])
    ensures r == [] || !IsWhitespace(r[0])
  {
    s[SkipFrom(s, 0)..]
  }

  /** trimEnd: drops the trailing whitespace. */
  function TrimEnd(s: string): (r: string)
    ensures r <= s
    ensures forall i :: |r| <= i < |s| ==> IsWhitespace(s[i])
    ensures r == [] || !IsWhitespace(r[|r| - 1])
  {
    s[..KeepUpTo(s, |s|)]
  }

  /** String.prototype.trim. */
  function Trim(s: string): string {
    TrimEnd(TrimStart(s))
  }

  /** How many whitespace characters trim drops from the front of `s`. */
  function LeadingWhitespace(s: string): (k: nat)
    ensures k <= |s|
  {
    SkipFrom(s, 0)
  }

  /**
    The address taken from an x-forwarded-for value: the run of characters
    that starts after the value's leading whitespace and stops before the
    whitespace that precedes the first comma (or the end); it never holds a
    comma.
  */
  ghost predicate IsForwardedAddress(ip: string, xff: string) {
    var k := LeadingWhitespace(FirstSegment(xff));
    && ',' !in ip
    && k + |ip| <= |xff| && ip == xff[k..k + |ip|]
    && (forall i :: 0 <= i < k ==> IsWhitespace(xff[i]))
    && (forall i :: k + |ip| <= i < |FirstSegment(xff)| ==> IsWhitespace(xff[i]))
    && (ip == [] || (!IsWhitespace(ip[0]) && !IsWhitespace(ip[|ip| - 1])))
  }

  lemma TrimmedFirstSegment(xff: string)
    ensures IsForwardedAddress(Trim(FirstSegment(xff)), xff)
  {
    TrimmedIsSlice(xff);
    TrimmedSurroundedByWhitespace(xff);
  }

  /** The trimmed first segment sits in the header right after the leading whitespace. */
  lemma TrimmedIsSlice(xff: string)
    ensures var k := LeadingWhitespace(FirstSegment(xff));
            var ip := Trim(FirstSegment(xff));
            k + |ip| <= |FirstSegment(xff)| && ip == xff[k..k + |ip|]
  {
    var segment := FirstSegment(xff);
    var k := SkipFrom(segment, 0);
    var trimmed := segment[k..];
    var ip := trimmed[..KeepUpTo(trimmed, |trimmed|)];
    assert Trim(segment) == ip;
    assert ip == xff[k..k + |ip|];
  }

  /** What trim drops around the address, within the first segment, is whitespace. */
  lemma TrimmedSurroundedByWhitespace(xff: string)
    ensures var k := LeadingWhitespace(FirstSegment(xff));
            var ip := Trim(FirstSegment(xff));
            && (forall i :: 0 <= i < k ==> IsWhitespace(xff[i]))
            && (forall i :: k + |ip| <= i < |FirstSegment(xff)| ==> IsWhitespace(xff[i]))
  {
    var segment := FirstSegment(xff);
    var k := SkipFrom(segment, 0);
    var trimmed := segment[k..];
    var m := KeepUpTo(trimmed, |trimmed|);
    assert |Trim(segment)| == m;
    forall i | 0 <= i < k
      ensures IsWhitespace(xff[i])
    {
      assert xff[i] == segment[i];
    }
    forall i | k + m <= i < |segment|
      ensures IsWhitespace(xff[i])
    {
      assert xff[i] == trimmed[i - k];
    }
  }

  /**
    getClientIp. The first header of x-forwarded-for, cf-connecting-ip and
    x-real-ip that is present and non-empty decides the address; a lower one
    is read only when every higher one is absent or empty, and the last two
    are returned verbatim.
  */
  function GetClientIp(headers: map<string, string>): (ip: string)
    ensures Truthy(Header(headers, ForwardedFor)) ==> IsForwardedAddress(ip, headers[ForwardedFor])
    ensures (!Truthy(Header(headers, ForwardedFor)) && Truthy(Header(headers, CfConnectingIp))) ==>
              ip == headers[CfConnectingIp]
    ensures (!Truthy(Header(headers, ForwardedFor)) && !Truthy(Header(headers, CfConnectingIp))
             && Truthy(Header(headers, RealIp))) ==> ip == headers[RealIp]
    ensures (!Truthy(Header(headers, ForwardedFor)) && !Truthy(Header(headers, CfConnectingIp))
             && !Truthy(Header(headers, RealIp))) ==> ip == Loopback
  {
    var forwardedFor := Header(headers, ForwardedFor);
    if Truthy(forwardedFor) then
      TrimmedFirstSegment(forwardedFor.value);
      Trim(FirstSegment(forwardedFor.value))
    else
      var cf := Header(headers, CfConnectingIp);
      if Truthy(cf) then cf.value
      else
        var realIp := Header(headers, RealIp);
        if Truthy(realIp) then realIp.value else Loopback
  }

  /** Only the highest truthy header matters: headers below it can be anything. */
  lemma LowerHeadersIgnored(h1: map<string, string>, h2: map<string, string>)
    ensures Truthy(Header(h1, ForwardedFor)) && Header(h1, ForwardedFor) == Header(h2, ForwardedFor)
            ==> GetClientIp(h1) == GetClientIp(h2)
    ensures !Truthy(Header(h1, ForwardedFor)) && !Truthy(Header(h2, ForwardedFor))
            && Truthy(Header(h1, CfConnectingIp)) && Header(h1, CfConnectingIp) == Header(h2, CfConnectingIp)
            ==> GetClientIp(h1) == GetClientIp(h2)
  {
  }

  /**
    The address is empty exactly when x-forwarded-for is set but its first
    segment is nothing but whitespace (for instance ", 10.0.0.1").
  */
  lemma EmptyIpIff(headers: map<string, string>)
    ensures GetClientIp(headers) == [] <==>
              Truthy(Header(headers, ForwardedFor)) &&
              forall i :: 0 <= i < |FirstSegment(headers[ForwardedFor])| ==> IsWhitespace(FirstSegment(headers[ForwardedFor])[i])
  {
    if Truthy(Header(headers, ForwardedFor)) {
      var segment := FirstSegment(headers[ForwardedFor]);
      var t := TrimStart(segment);
      assert TrimEnd(t) == [] ==> t == [] by {
        if t != [] { assert !IsWhitespace(t[0]); }
      }
    }
  }
}
