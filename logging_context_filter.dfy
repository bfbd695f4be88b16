/**
 * The request filter that puts the client address and the user name into
 * the logging diagnostic context for the time of a request.
 */
module LoggingContextFilter {
  import opened Wrappers
  import opened Errors
  import opened Text

  const Loopback := "127.0.0.1"
  const Anonymous := "ANONYMOUS"
  /** The principal Spring Security gives a request nobody has logged in to. */
  const AnonymousPrincipal := "anonymousUser"

  /** The two spellings of the IPv6 loopback address that are logged as IPv4 loopback. */
  predicate IsIpv6Loopback(ip: string) {
    ip == "0:0:0:0:0:0:0:1" || ip == "::1"
  }

  /** The header is present and holds a non-whitespace character. */
  predicate Usable(xff: Option<string>) {
    xff.Some? && !IsBlank(xff.value)
  }

  /**
   * `getClientIp`: element 0 of the X-Forwarded-For header split at commas,
   * trimmed, when the header is usable; otherwise the remote address, the
   * IPv6 loopback being rewritten.
   */
  function GetClientIp(xff: Option<string>, remoteAddr: string): (r: Result<string, Error>)
    ensures Usable(xff) ==> (r.Failure? <==> forall k | 0 <= k < |xff.value| :: xff.value[k] == ',')
    ensures r.Failure? ==> r.error == ArrayIndexOutOfBounds
    ensures Usable(xff) && r.Success? ==> r.value == Trim(FirstField(xff.value)) && ',' !in r.value
    ensures !Usable(xff) && IsIpv6Loopback(remoteAddr) ==> r == Success(Loopback)
    ensures !Usable(xff) && !IsIpv6Loopback(remoteAddr) ==> r == Success(remoteAddr)
  {
    if Usable(xff) then
      var fields := Split(xff.value);
      SplitFirst(xff.value);
      if |fields| == 0 then Failure(ArrayIndexOutOfBounds)
      else
        var ip := Trim(fields[0]);
        TrimKeepsCommaFree(fields[0]);
        Success(ip)
    else if IsIpv6Loopback(remoteAddr) then Success(Loopback)
    else Success(remoteAddr)
  }

  /** Trimming a text without a comma leaves none. */
  lemma TrimKeepsCommaFree(s: string)
    requires ',' !in s
    ensures ',' !in Trim(s)
  {
    var i, j :| 0 <= i <= j <= |s| && Trim(s) == s[i..j];
    forall k | 0 <= k < j - i ensures s[i..j][k] != ',' {
      assert s[i..j][k] == s[i + k];
    }
  }

  /** A usable header that starts with a comma yields the empty address. */
  lemma LeadingCommaGivesEmpty(xff: string, remoteAddr: string)
    requires |xff| > 0 && xff[0] == ',' && !IsBlank(xff)
    requires exists k | 0 <= k < |xff| :: xff[k] != ','
    ensures GetClientIp(Some(xff), remoteAddr) == Success("")
  {
    assert FirstField(xff) == [];
  }

  /** A header made of commas only gets through the blank test and fails at element 0. */
  lemma CommasOnlyFails(remoteAddr: string)
    ensures GetClientIp(Some(",,"), remoteAddr) == Failure(ArrayIndexOutOfBounds)
  {
    var xff := ",,";
    assert !IsWhitespace(xff[0]);
    assert Usable(Some(xff));
    assert forall k | 0 <= k < |xff| :: xff[k] == ',';
  }

  /** The remote address is used only when the header is missing or blank. */
  lemma HeaderWins(xff: string, remoteAddr: string, otherAddr: string)
    requires !IsBlank(xff)
    ensures GetClientIp(Some(xff), remoteAddr) == GetClientIp(Some(xff), otherAddr)
  {
  }

  /** The principal of an authentication: the anonymous user's is its name as text, a logged-in user's is an object. */
  datatype Principal = PrincipalText(text: string) | PrincipalObject

  datatype Authentication = Authentication(authenticated: bool, principal: Principal, name: string)

  /** The user name logged for a request. */
  function UserName(auth: Option<Authentication>): (r: string)
    ensures (auth.Some? && auth.value.authenticated && auth.value.principal != PrincipalText(AnonymousPrincipal))
      ==> r == auth.value.name
    ensures !(auth.Some? && auth.value.authenticated && auth.value.principal != PrincipalText(AnonymousPrincipal))
      ==> r == Anonymous
  {
    if auth.Some? && auth.value.authenticated && auth.value.principal != PrincipalText(AnonymousPrincipal) then auth.value.name
    else Anonymous
  }

  /** The anonymous token is authenticated, yet the request is logged as anonymous. */
  lemma AnonymousTokenLoggedAnonymous(name: string)
    ensures UserName(Some(Authentication(true, PrincipalText(AnonymousPrincipal), name))) == Anonymous
  {
  }

  /** The per-thread logging diagnostic context. */
  class DiagnosticContext {
    var entries: map<string, string>

    constructor()
      ensures entries == map[]
    {
      entries := map[];
    }

    /**
     * `doFilter`: puts "ip", then "UserName", passes the request on, and
     * clears the context however that ends. The rest of the chain is given
     * by its outcome; `seen` is the context it ran with (None when the
     * client address failed first).
     */
    method DoFilter(xff: Option<string>, remoteAddr: string, auth: Option<Authentication>, chain: Result<(), Error>)
      returns (r: Result<(), Error>, seen: Option<map<string, string>>)
      modifies this
      ensures entries == map[]
      ensures GetClientIp(xff, remoteAddr).Failure? ==> r == Failure(GetClientIp(xff, remoteAddr).error) && seen.None?
      ensures GetClientIp(xff, remoteAddr).Success? ==>
        && r == chain
        && seen == Some(old(entries)["ip" := GetClientIp(xff, remoteAddr).value]["UserName" := UserName(auth)])
    {
      var ip := GetClientIp(xff, remoteAddr);
      if ip.Failure? {
        entries := map[];
        return Failure(ip.error), None;
      }
      entries := entries["ip" := ip.value];
      var user := UserName(auth);
      entries := entries["UserName" := user];
      seen := Some(entries);
      r := chain;
      entries := map[];
    }
  }
}
