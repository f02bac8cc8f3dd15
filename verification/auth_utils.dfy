/**
 * Sign-in helpers: the callback-URL whitelist
 * (components/auth/utils/safeCallbackUrl.ts) and the sign-in error messages
 * (components/auth/utils/errorMap.ts).
 */
module AuthUtils {
  import opened Prelude
  import opened Strings

  // ---------------------------------------------------------------------
  // decodeURIComponent
  // ---------------------------------------------------------------------

  predicate IsHex(c: char) { IsDigit(c) || 'a' <= c <= 'f' || 'A' <= c <= 'F' }

  function HexValue(c: char): (v: nat)
    requires IsHex(c)
    ensures v < 16
  {
    if IsDigit(c) then c as int - '0' as int
    else if 'a' <= c <= 'f' then c as int - 'a' as int + 10
    else c as int - 'A' as int + 10
  }

  /**
   * `decodeURIComponent` for escapes of ASCII characters: each `%XX` becomes
   * the character XX, every other character stays; a `%` without two hex
   * digits after it makes the call throw (None).
   */
  function Decode(s: string): (r: Option<string>)
    ensures r.Some? ==> |r.value| <= |s|
    decreases |s|
  {
    if s == [] then Some([])
    else if s[0] == '%' then
      if |s| >= 3 && IsHex(s[1]) && IsHex(s[2]) && HexValue(s[1]) * 16 + HexValue(s[2]) < 128 then
        match Decode(s[3..])
        case None => None
        case Some(rest) => Some([(HexValue(s[1]) * 16 + HexValue(s[2])) as char] + rest)
      else None
    else
      match Decode(s[1..])
      case None => None
      case Some(rest) => Some([s[0]] + rest)
  }

  /** Text without `%` decodes to itself. */
  lemma {:induction false} DecodePlain(s: string)
    requires '%' !in s
    ensures Decode(s) == Some(s)
  {
    if s != [] {
      assert s[0] in s;
      assert forall c :: c in s[1..] ==> c in s;
      DecodePlain(s[1..]);
      assert [s[0]] + s[1..] == s;
    }
  }

  // ---------------------------------------------------------------------
  // safeCallbackUrl
  // ---------------------------------------------------------------------

  const Default: string := "/admin"

  /** `/^https?:\/\//i`. */
  predicate IsAbsoluteHttp(s: string)
  {
    StartsWith(Lower(s), "http://") || StartsWith(Lower(s), "https://")
  }

  /** The whitelist as written: one of `"/admin"` and `"/"`, or a path starting with one of them followed by `/`. */
  predicate AllowedAsWritten(d: string)
  {
    d == "/admin" || d == "/" || StartsWith(d, "/admin/") || StartsWith(d, "//")
  }

  /** The steps shared by both versions: blank, absolute or undecodable input gives the default. */
  function Screened(raw: Option<string>): (r: Option<string>)
    ensures r.Some? ==> raw.Some? && raw.value != [] && !IsAbsoluteHttp(Trim(raw.value)) && Decode(Trim(raw.value)) == r
  {
    if raw.None? || raw.value == [] then None
    else
      var trimmed := Trim(raw.value);
      if IsAbsoluteHttp(trimmed) then None else Decode(trimmed)
  }

  /** The whitelist step as written: a screened path is kept when accepted. */
  function ResolveAsWritten(screened: Option<string>): string
  {
    match screened
    case None => Default
    case Some(decoded) => if AllowedAsWritten(decoded) then decoded else Default
  }

  /** `safeCallbackUrl` as written. */
  function SafeCallbackUrlAsWritten(raw: Option<string>): string
  {
    ResolveAsWritten(Screened(raw))
  }

  /**
   * As written, a protocol-relative URL such as `//evil.example` passes the
   * whitelist, since `"/" + "/"` is one of the accepted prefixes, and a
   * browser sent there leaves the site; the intended whitelist sends it to
   * `/admin`. `PlainPathScreened` shows that such text passes screening.
   */
  lemma ProtocolRelativeAccepted(u: string)
    requires StartsWith(u, "//")
    ensures ResolveAsWritten(Some(u)) == u
    ensures Resolve(Some(u)) == Default
  {
    assert u[1] == u[..2][1] == '/';
    assert |u| >= 7 ==> u[..7][1] == '/';
  }

  /** A trimmed path without escapes passes screening unchanged. */
  lemma PlainPathScreened(u: string)
    requires u != [] && u[0] == '/' && '%' !in u && !IsSpace(u[|u| - 1])
    ensures Screened(Some(u)) == Some(u)
  {
    assert IsTrimmed(u);
    TrimOfTrimmed(u);
    SlashNotHttp(u);
    DecodePlain(u);
  }

  /** Text starting with `/` is not an absolute http(s) URL. */
  lemma SlashNotHttp(u: string)
    requires u != [] && u[0] == '/'
    ensures !IsAbsoluteHttp(u)
  {
    var l := Lower(u);
    assert l[0] == '/';
    if |l| >= 7 {
      assert l[..7][0] == '/';
    }
  }

  /** A same-origin path: it starts with one `/`, and not with `//`. */
  predicate SameOrigin(s: string)
  {
    StartsWith(s, "/") && !StartsWith(s, "//")
  }

  /** The whitelist as intended: `"/admin"`, `"/"`, or a path under `/admin/`. */
  predicate Allowed(d: string)
  {
    d == "/admin" || d == "/" || StartsWith(d, "/admin/")
  }

  /** Every path the intended whitelist accepts is a same-origin path in the admin area or the site root. */
  lemma AllowedSameOrigin(d: string)
    requires Allowed(d)
    ensures SameOrigin(d) && (d == "/" || StartsWith(d, "/admin"))
  {
    if d == "/" {
      assert d[..1] == "/";
    } else {
      assert StartsWith(d, "/admin") by {
        if d != "/admin" {
          assert d[..6] == d[..7][..6];
        }
      }
      assert d[..1] == d[..6][..1];
      assert d[1] == d[..6][1] == 'a';
    }
  }

  /** The whitelist step as intended. */
  function Resolve(screened: Option<string>): (r: string)
    ensures r == Default || screened == Some(r)
    ensures SameOrigin(r)
    ensures r == "/" || StartsWith(r, "/admin")
  {
    match screened
    case None => AllowedSameOrigin(Default); Default
    case Some(decoded) =>
      if Allowed(decoded) then AllowedSameOrigin(decoded); decoded
      else AllowedSameOrigin(Default); Default
  }

  /** `safeCallbackUrl` without the protocol-relative hole. */
  function SafeCallbackUrl(raw: Option<string>): (r: string)
    ensures r == Default || Screened(raw) == Some(r)
    ensures SameOrigin(r)
    ensures r == "/" || StartsWith(r, "/admin")
  {
    Resolve(Screened(raw))
  }

  /** Once screening yields a decoded path, it is the result exactly when the whitelist accepts it. */
  lemma CallbackAcceptedIff(raw: Option<string>, d: string)
    requires Screened(raw) == Some(d)
    ensures SafeCallbackUrl(raw) == d <==> Allowed(d) || d == Default
    ensures SafeCallbackUrlAsWritten(raw) == d <==> AllowedAsWritten(d) || d == Default
  {
  }

  /** Blank input, an absolute http(s) URL and undecodable input all give `/admin`. */
  lemma CallbackDefaults(raw: Option<string>)
    requires raw.None? || raw.value == [] || IsAbsoluteHttp(Trim(raw.value)) || Decode(Trim(raw.value)).None?
    ensures SafeCallbackUrl(raw) == Default && SafeCallbackUrlAsWritten(raw) == Default
  {
  }

  /** The two versions agree on everything but protocol-relative URLs. */
  lemma CallbackVersionsAgree(raw: Option<string>)
    requires Screened(raw).None? || !StartsWith(Screened(raw).value, "//")
    ensures SafeCallbackUrl(raw) == SafeCallbackUrlAsWritten(raw)
  {
  }

  // ---------------------------------------------------------------------
  // mapNextAuthError
  // ---------------------------------------------------------------------

  /** The record literal of `mapNextAuthError`: each known code and its message. */
  const ErrorTable: map<string, string> := map[
    "OAuthSignin" := "OAuth sign-in failed.",
    "OAuthCallback" := "OAuth callback failed.",
    "OAuthAccountNotLinked" := "Account not linked to this provider.",
    "CredentialsSignin" := "Invalid email or password.",
    "AccessDenied" := "Access denied.",
    "default" := "Sign in failed."
  ]

  const DefaultMessage: string := "Sign in failed."

  /**
   * The members every object literal inherits from `Object.prototype`:
   * `map[code]` finds one of these (a function, or the prototype itself for
   * `__proto__`), which is not nullish, so `?? map.default` keeps it.
   */
  const PrototypeKeys: set<string> := {
    "constructor", "hasOwnProperty", "isPrototypeOf", "propertyIsEnumerable",
    "toLocaleString", "toString", "valueOf", "__proto__",
    "__defineGetter__", "__defineSetter__", "__lookupGetter__", "__lookupSetter__"
  }

  /** What `mapNextAuthError` returns: null, a message, or an inherited member. */
  datatype SignInError = NoMessage | Message(text: string) | Inherited(key: string)

  /**
   * `mapNextAuthError`: no code gives null; a code of the table gives its
   * message; a prototype member name gives that member; any other code the
   * default message.
   */
  function MapNextAuthError(code: Option<string>): (r: SignInError)
    ensures r.NoMessage? <==> code.None? || code.value == []
    ensures r.Inherited? <==> code.Some? && code.value in PrototypeKeys
    ensures r.Inherited? ==> r.key == code.value
    ensures r.Message? ==> r.text in ErrorTable.Values && r.text != []
    ensures r.Message? ==> (r.text == DefaultMessage <==> code.value !in ErrorTable || code.value == "default")
  {
    if code.None? || code.value == [] then NoMessage
    else if code.value in ErrorTable then Message(ErrorTable[code.value])
    else if code.value in PrototypeKeys then Inherited(code.value)
    else Message(ErrorTable["default"])
  }

  /**
   * A message other than the default names its code: two codes that give
   * the same non-default message are the same code.
   */
  lemma MessageIdentifiesCode(a: string, b: string)
    requires MapNextAuthError(Some(a)).Message? && MapNextAuthError(Some(b)).Message?
    requires MapNextAuthError(Some(a)) == MapNextAuthError(Some(b))
    requires MapNextAuthError(Some(a)).text != DefaultMessage
    ensures a == b
  {
    assert a in ErrorTable && b in ErrorTable;
  }
}
