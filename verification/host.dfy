/**
  The host check both scripts make before anything else: the host must be
  an IP address or a host name, so that the login URL built from it cannot
  carry a path, a query or credentials, and the password is sent only to
  the host named.
 */
module Host {
  import opened Strings

  /** `[\w.\-:]`: an ASCII letter or digit, or one of `_`, `.`, `-`, `:`. */
  predicate HostChar(c: char) {
    || ('a' <= c <= 'z') || ('A' <= c <= 'Z') || ('0' <= c <= '9')
    || c == '_' || c == '.' || c == '-' || c == ':'
  }

  /** `/^[\w.\-:]+$/.test(host)` */
  predicate ValidHost(h: string) {
    |h| > 0 && forall k :: 0 <= k < |h| ==> HostChar(h[k])
  }

  /**
    The regular expression's test as a left-to-right scan over the host,
    proved to accept exactly the hosts `ValidHost` accepts; the run models
    use `ValidHost` itself.
   */
  method CheckHost(h: string) returns (ok: bool)
    ensures ok <==> ValidHost(h)
  {
    if |h| == 0 {
      return false;
    }
    var i := 0;
    while i < |h|
      invariant 0 <= i <= |h|
      invariant forall k :: 0 <= k < i ==> HostChar(h[k])
    {
      if !HostChar(h[i]) {
        return false;
      }
      i := i + 1;
    }
    return true;
  }

  /** The page the scripts load first. */
  function LoginUrl(h: string): string {
    "https://" + h + "/"
  }

  /**
    An accepted host holds none of the characters that would end or extend
    the URL's authority part: no path, query, fragment, user-info, blank or
    shell separator.
   */
  lemma ValidHostIsBare(h: string)
    requires ValidHost(h)
    ensures forall c :: c in h ==> c !in "/@?#; \\"
  {
  }

  /**
    For an accepted host the login URL's authority is exactly the host: the
    first `/` after the scheme is the one the scripts append, and no `@`
    can turn a prefix of it into credentials.
   */
  lemma LoginUrlAuthority(h: string)
    requires ValidHost(h)
    ensures IndexOf(LoginUrl(h), '/', 8) == 8 + |h|
    ensures LoginUrl(h)[8..8 + |h|] == h
    ensures '@' !in LoginUrl(h)
  {
    var u := LoginUrl(h);
    assert forall k :: 8 <= k < 8 + |h| ==> u[k] == h[k - 8];
    assert u[8 + |h|] == '/';
    assert forall k :: 0 <= k < |h| ==> h[k] != '/' && h[k] != '@';
  }

  lemma HostExamples()
    ensures ValidHost("10.0.0.5")
    ensures ValidHost("bmc-host01")
    ensures ValidHost("fe80::1")
    ensures !ValidHost("")
    ensures !ValidHost("10.0.0.5; rm -rf")
    ensures !ValidHost("http://evil/")
    ensures !ValidHost("user@host")
  {
    assert "10.0.0.5; rm -rf"[8] == ';';
    assert "http://evil/"[5] == '/';
    assert "user@host"[4] == '@';
  }
}
