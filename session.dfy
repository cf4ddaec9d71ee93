/**
 * Sessions of src/utils/session.ts: a 64-character hex token drawn from 32
 * random bytes names a KV entry holding the session record for seven days;
 * the browser carries the token in the `session_id` cookie. The random
 * bytes (`crypto.getRandomValues`) are a parameter.
 */
module Session {
  import opened Wrappers
  import opened Kv
  import opened Strings
  import opened Bytes

  datatype SessionData = SessionData(userId: string, username: string, email: string)

  /** Why `requireSession` throws: there is no authenticated session. */
  datatype AuthError = AuthenticationRequired

  const SessionCookieName := "session_id"

  /** Seven days, in seconds. */
  const SessionExpirySeconds := 60 * 60 * 24 * 7

  /** A lower-case hexadecimal digit. */
  predicate IsHexDigit(c: char)
  {
    '0' <= c <= '9' || 'a' <= c <= 'f'
  }

  /** The digit of `d` in base 16, lower case, as `toString(16)` writes it. */
  function HexDigit(d: nat): (c: char)
    requires d < 16
    ensures IsHexDigit(c)
  {
    if d < 10 then ('0' as int + d) as char else ('a' as int + d - 10) as char
  }

  /** `byte.toString(16).padStart(2, "0")`. */
  function HexByte(b: Byte): string
  {
    [HexDigit(b / 16), HexDigit(b % 16)]
  }

  /** The bytes, two lower-case hex digits each, joined without separator. */
  function Hex(bytes: seq<Byte>): (s: string)
    ensures |s| == 2 * |bytes|
    ensures forall i :: 0 <= i < |s| ==> IsHexDigit(s[i])
  {
    if |bytes| == 0 then "" else HexByte(bytes[0]) + Hex(bytes[1..])
  }

  function HexValue(c: char): (v: nat)
    requires IsHexDigit(c)
    ensures v < 16 && HexDigit(v) == c
  {
    if '0' <= c <= '9' then c as int - '0' as int else c as int - 'a' as int + 10
  }

  /** Hex decoding, the inverse of `Hex`. */
  function Unhex(s: string): seq<Byte>
    requires |s| % 2 == 0
    requires forall i :: 0 <= i < |s| ==> IsHexDigit(s[i])
  {
    if |s| == 0 then [] else [16 * HexValue(s[0]) + HexValue(s[1])] + Unhex(s[2..])
  }

  /** The two digits of a byte decode to that byte. */
  lemma HexByteDecodes(b: Byte)
    ensures var h := HexByte(b); 16 * HexValue(h[0]) + HexValue(h[1]) == b
  {
    var h := HexByte(b);
    assert HexValue(h[0]) == b / 16;
    assert HexValue(h[1]) == b % 16;
  }

  /** Hex decoding gives back the random bytes. */
  lemma {:induction false} UnhexHex(bytes: seq<Byte>)
    ensures Unhex(Hex(bytes)) == bytes
  {
    if |bytes| > 0 {
      var s := Hex(bytes);
      var h := HexByte(bytes[0]);
      assert s == h + Hex(bytes[1..]);
      assert s[0] == h[0] && s[1] == h[1] && s[2..] == Hex(bytes[1..]);
      HexByteDecodes(bytes[0]);
      UnhexHex(bytes[1..]);
      assert bytes == [bytes[0]] + bytes[1..];
    }
  }

  /** `generateSessionToken()`, given the 32 bytes `crypto.getRandomValues` fills in. */
  function GenerateSessionToken(random: seq<Byte>): (token: string)
    requires |random| == 32
    ensures |token| == 64
    ensures forall i :: 0 <= i < |token| ==> IsHexDigit(token[i])
    ensures Unhex(token) == random
  {
    UnhexHex(random);
    Hex(random)
  }

  /** `const [name, value] = cookie.split("=")`: the token when the name is `session_id` and the value is non-empty. */
  function ItemToken(item: string): (r: Option<string>)
    ensures r.Some? ==> r.value != "" && '=' !in r.value
  {
    SplitJoin(item, '=');
    var parts := Split(item, '=');
    if parts[0] == SessionCookieName && |parts| > 1 && parts[1] != "" then Some(parts[1]) else None
  }

  /** The token of the first item that carries one. */
  function FirstToken(items: seq<string>): (r: Option<string>)
    ensures r.None? <==> forall i :: 0 <= i < |items| ==> ItemToken(items[i]).None?
    ensures r.Some? ==> (exists i :: 0 <= i < |items| && ItemToken(items[i]) == r
                                      && forall j :: 0 <= j < i ==> ItemToken(items[j]).None?)
  {
    if |items| == 0 then None
    else if ItemToken(items[0]).Some? then ItemToken(items[0])
    else
      var r := FirstToken(items[1..]);
      assert forall i :: 1 <= i < |items| ==> items[i] == items[1..][i - 1];
      r
  }

  function TrimAll(parts: seq<string>): (r: seq<string>)
    ensures |r| == |parts|
    ensures forall i :: 0 <= i < |r| ==> r[i] == Trim(parts[i])
  {
    seq(|parts|, i requires 0 <= i < |parts| => Trim(parts[i]))
  }

  /** What `getSessionTokenFromCookie` returns for a `Cookie` header. */
  function CookieToken(cookieHeader: Option<string>): (r: Option<string>)
    ensures cookieHeader.None? || cookieHeader.value == "" ==> r.None?
    ensures r.Some? ==> r.value != "" && '=' !in r.value
  {
    if cookieHeader.None? || cookieHeader.value == "" then None
    else FirstToken(TrimAll(Split(cookieHeader.value, ';')))
  }

  /** `getSessionTokenFromCookie(cookieHeader)`: the loop over the `;`-separated items with its early return. */
  method GetSessionTokenFromCookie(cookieHeader: Option<string>) returns (token: Option<string>)
    ensures token == CookieToken(cookieHeader)
  {
    if cookieHeader.None? || cookieHeader.value == "" {
      return None;
    }
    var cookies := TrimAll(Split(cookieHeader.value, ';'));
    for i := 0 to |cookies|
      invariant forall j :: 0 <= j < i ==> ItemToken(cookies[j]).None?
    {
      var parts := Split(cookies[i], '=');
      var name := parts[0];
      var value := if |parts| > 1 then Some(parts[1]) else None;
      if name == SessionCookieName && value.Some? && value.value != "" {
        return value;
      }
    }
    return None;
  }

  /** `Max-Age` of the session cookie: the decimal form of `SessionExpirySeconds`. */
  const MaxAgeText := "604800"

  /** The attributes both `Set-Cookie` values carry (section 4.1 of RFC 6265). */
  const CookieAttributes := "Path=/; HttpOnly; Secure; SameSite=Lax"

  /** `createSessionCookie(sessionToken)`: the `Set-Cookie` value after login. */
  function SessionCookie(sessionToken: string): (c: string)
    ensures StartsWith(c, SessionCookieName + "=" + sessionToken + ";")
    ensures |c| >= 14 && c[|c| - 14..] == "Max-Age=604800"
  {
    SessionCookieName + "=" + sessionToken + "; " + CookieAttributes + "; Max-Age=" + MaxAgeText
  }

  /** `createLogoutCookie()`: an empty session cookie that expires at once. */
  function LogoutCookie(): (c: string)
    ensures StartsWith(c, SessionCookieName + "=;")
    ensures |c| >= 9 && c[|c| - 9..] == "Max-Age=0"
  {
    SessionCookieName + "=; " + CookieAttributes + "; Max-Age=0"
  }

  /** Parsing the login cookie gives back any token `generateSessionToken` makes. */
  lemma SessionCookieRoundTrip(random: seq<Byte>)
    requires |random| == 32
    ensures CookieToken(Some(SessionCookie(GenerateSessionToken(random)))) == Some(GenerateSessionToken(random))
  {
    var t := GenerateSessionToken(random);
    var head := SessionCookieName + "=" + t;
    var tail := " " + CookieAttributes + "; Max-Age=" + MaxAgeText;
    assert SessionCookie(t) == head + [';'] + tail;
    assert '=' !in t && ';' !in t && !IsWhitespace(t[63]) by {
      assert forall i :: 0 <= i < |t| ==> IsHexDigit(t[i]);
    }
    HeadItemToken(t);
    SplitAtFirst(head, ';', tail);
  }

  /** The first item of a session cookie yields its token. */
  lemma HeadItemToken(t: string)
    requires t != "" && '=' !in t && ';' !in t && !IsWhitespace(t[|t| - 1])
    ensures ';' !in SessionCookieName + "=" + t
    ensures ItemToken(Trim(SessionCookieName + "=" + t)) == Some(t)
  {
    var head := SessionCookieName + "=" + t;
    assert head[|head| - 1] == t[|t| - 1];
    TrimNoEdges(head);
    assert head == SessionCookieName + ['='] + t;
    SplitAtFirst(SessionCookieName, '=', t);
    SplitNoSep(t, '=');
    assert Split(head, '=') == [SessionCookieName, t];
  }

  /** Parsing the logout cookie finds no token: its `session_id` value is empty. */
  lemma LogoutCookieHasNoToken()
    ensures CookieToken(Some(LogoutCookie())) == None
  {
    var head := SessionCookieName + "=";
    var tail := " " + CookieAttributes + "; Max-Age=0";
    assert LogoutCookie() == head + [';'] + tail;
    SplitAtFirst(head, ';', tail);
    var pieces := Split(LogoutCookie(), ';');
    assert pieces == [head] + Split(tail, ';');
    var items := TrimAll(pieces);
    EmptyValueHasNoToken();
    NoUnderscoreInAttributes();
    SplitJoin(tail, ';');
    forall i | 1 <= i < |items| ensures ItemToken(items[i]).None? {
      assert pieces[i] == Split(tail, ';')[i - 1];
      JoinHasPieceChars(Split(tail, ';'), ';', i - 1);
      NoUnderscoreNoToken(pieces[i]);
    }
  }

  lemma NoUnderscoreInAttributes()
    ensures '_' !in " " + CookieAttributes + "; Max-Age=0"
  {
    assert '_' !in CookieAttributes;
    assert '_' !in "; Max-Age=0";
  }

  /** `session_id=` with nothing after it carries no token. */
  lemma EmptyValueHasNoToken()
    ensures ItemToken(Trim(SessionCookieName + "=")).None?
  {
    var head := SessionCookieName + "=";
    TrimNoEdges(head);
    SplitAtFirst(SessionCookieName, '=', "");
    assert head == SessionCookieName + ['='] + "";
    assert Split(head, '=') == [SessionCookieName, ""];
  }

  /** A cookie item without the character `_` cannot name `session_id`. */
  lemma NoUnderscoreNoToken(piece: string)
    requires '_' !in piece
    ensures ItemToken(Trim(piece)).None?
  {
    TrimIsSlice(piece);
    ItemTokenNeedsName(Trim(piece));
  }

  /** Every character of a piece appears in the joined string. */
  lemma {:induction false} JoinHasPieceChars(parts: seq<string>, sep: char, k: nat)
    requires k < |parts|
    ensures forall c :: c in parts[k] ==> c in Join(parts, sep)
  {
    if |parts| > 1 {
      assert Join(parts, sep) == parts[0] + [sep] + Join(parts[1..], sep);
      if k > 0 {
        JoinHasPieceChars(parts[1..], sep, k - 1);
      }
    }
  }

  /** An item yields a token only when it begins with `session_id=`. */
  lemma ItemTokenNeedsName(item: string)
    ensures ItemToken(item).Some? ==> |item| > 11 && item[..11] == "session_id=" && '_' in item
  {
    if ItemToken(item).Some? {
      var parts := Split(item, '=');
      SplitJoin(item, '=');
      JoinHead(parts, '=');
      assert item[7] == '_';
    }
  }

  /** With two or more pieces, a join starts with the first piece and the separator. */
  lemma JoinHead(parts: seq<string>, sep: char)
    requires |parts| >= 2
    ensures var j := Join(parts, sep); |j| > |parts[0]| && j[..|parts[0]| + 1] == parts[0] + [sep]
  {
    var j := Join(parts, sep);
    assert j == parts[0] + [sep] + Join(parts[1..], sep);
  }

  /** A KV namespace of sessions keyed by token. */
  class SessionStore {
    var kv: map<string, Entry<SessionData>>

    constructor (initial: map<string, Entry<SessionData>>)
      ensures kv == initial
    {
      kv := initial;
    }

    /** `createSession(kv, data)`: stores the record under a new token for seven days. */
    method CreateSession(data: SessionData, random: seq<Byte>) returns (sessionToken: string)
      requires |random| == 32
      modifies this
      ensures sessionToken == GenerateSessionToken(random)
      ensures kv == old(kv)[sessionToken := Entry(Json(data), SessionExpirySeconds)]
      ensures Parsed(kv, sessionToken) == Some(data)
      ensures forall t :: t != sessionToken ==> Get(kv, t) == Get(old(kv), t)
    {
      sessionToken := GenerateSessionToken(random);
      kv := kv[sessionToken := Entry(Json(data), SessionExpirySeconds)];
    }

    /** `getSession(kv, token)`: `null` for a missing, empty or unparsable entry, never an exception. */
    method GetSession(sessionToken: string) returns (session: Option<SessionData>)
      ensures session.Some? <==> sessionToken in kv && kv[sessionToken].text.Json?
      ensures session.Some? ==> kv[sessionToken].text == Json(session.value)
    {
      var data := Get(kv, sessionToken);
      if data.None? || data.value.text.Empty? {
        return None;
      }
      match data.value.text {
        case Json(record) => session := Some(record);
        case _ => session := None;
      }
    }

    /** `deleteSession(kv, token)`: removes that token only; an absent token is no error. */
    method DeleteSession(sessionToken: string)
      modifies this
      ensures kv == old(kv) - {sessionToken}
      ensures Parsed(kv, sessionToken) == None
      ensures forall t :: t != sessionToken ==> Get(kv, t) == Get(old(kv), t)
    {
      kv := kv - {sessionToken};
    }

    /** `getSessionFromRequest(env, request)`, given the request's `Cookie` header. */
    method GetSessionFromRequest(cookieHeader: Option<string>) returns (session: Option<SessionData>)
      ensures session == SessionFromRequest(kv, cookieHeader)
    {
      var sessionToken := GetSessionTokenFromCookie(cookieHeader);
      if sessionToken.None? {
        return None;
      }
      session := GetSession(sessionToken.value);
    }

    /** `requireSession(env, request)`: the session, or the "authentication required" error. */
    method RequireSession(cookieHeader: Option<string>) returns (r: Result<SessionData, AuthError>)
      ensures r.Failure? <==> SessionFromRequest(kv, cookieHeader).None?
      ensures r.Success? ==> SessionFromRequest(kv, cookieHeader) == Some(r.value)
    {
      var session := GetSessionFromRequest(cookieHeader);
      if session.None? {
        return Failure(AuthenticationRequired);
      }
      return Success(session.value);
    }

    /**
     * `createAndSetSession(kv, data)`: creates the session and yields the
     * `Set-Cookie` value that carries its token.
     */
    method CreateAndSetSession(data: SessionData, random: seq<Byte>) returns (setCookie: string)
      requires |random| == 32
      modifies this
      ensures kv == old(kv)[GenerateSessionToken(random) := Entry(Json(data), SessionExpirySeconds)]
      ensures setCookie == SessionCookie(GenerateSessionToken(random))
      ensures SessionFromRequest(kv, Some(setCookie)) == Some(data)
    {
      var sessionToken := CreateSession(data, random);
      setCookie := SessionCookie(sessionToken);
      SessionCookieRoundTrip(random);
    }
  }

  /** The session a request's `Cookie` header leads to. */
  function SessionFromRequest(kv: map<string, Entry<SessionData>>, cookieHeader: Option<string>): (r: Option<SessionData>)
    ensures r.None? <==> CookieToken(cookieHeader).None? || Parsed(kv, CookieToken(cookieHeader).value).None?
  {
    match CookieToken(cookieHeader)
    case None => None
    case Some(t) => Parsed(kv, t)
  }

  /** A browser sending back the login cookie is recognised as the stored session. */
  lemma LoginCookieAuthenticates(kv: map<string, Entry<SessionData>>, data: SessionData, random: seq<Byte>)
    requires |random| == 32
    ensures var t := GenerateSessionToken(random);
      SessionFromRequest(kv[t := Entry(Json(data), SessionExpirySeconds)], Some(SessionCookie(t))) == Some(data)
  {
    SessionCookieRoundTrip(random);
  }

  /** After logout the deleted token no longer authenticates. */
  lemma DeletedTokenRejected(kv: map<string, Entry<SessionData>>, random: seq<Byte>)
    requires |random| == 32
    ensures var t := GenerateSessionToken(random);
      SessionFromRequest(kv - {t}, Some(SessionCookie(t))).None?
  {
    SessionCookieRoundTrip(random);
  }
}
