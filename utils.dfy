/**
 * The string side of staff/utils.py: which address a request came from, and
 * the URL and file path a staff member's verification code is built from.
 * Encoding the URL into an image and writing the file are left to the caller
 * (see the `images` table of `Models.Database`).
 */
module Utils {
  import opened Wrappers
  import opened Text

  type Uuid = string

  /**
   * The settings generation reads. `siteDomain` is None when the setting is
   * not defined at all; `mountPrefix` is where the project's root URL
   * configuration mounts the staff routes ("" for the site root).
   */
  datatype Settings = Settings(
    debug: bool,
    siteDomain: Option<string>,
    allowedHosts: seq<string>,
    mountPrefix: string)

  /**
   * A host can be named: the deployment's settings always split ALLOWED_HOSTS
   * out of a string, which yields at least one entry.
   */
  predicate HasHost(c: Settings)
  {
    c.siteDomain.Some? || |c.allowedHosts| > 0
  }

  /** Plain http in debug mode, https in production. */
  function Protocol(debug: bool): (r: string)
    ensures r == "http" || r == "https"
    ensures r == "http" <==> debug
  {
    if debug then "http" else "https"
  }

  /** SITE_DOMAIN when it is defined, otherwise the first allowed host. */
  function SiteDomain(c: Settings): (r: string)
    requires HasHost(c)
    ensures c.siteDomain.Some? ==> r == c.siteDomain.value
    ensures c.siteDomain.None? ==> r == c.allowedHosts[0]
  {
    match c.siteDomain
    case Some(d) => d
    case None => c.allowedHosts[0]
  }

  /** The path the `staff:verify` route reverses to. */
  function VerificationPath(mountPrefix: string, u: Uuid): (r: string)
    ensures |r| == |mountPrefix| + |u| + 9
    ensures "/" <= r
    ensures r[1..1 + |mountPrefix|] == mountPrefix
    ensures var tail := "verify/" + u + "/"; r[|r| - |tail|..] == tail
  {
    "/" + mountPrefix + "verify/" + u + "/"
  }

  /**
   * The absolute URL a verification code encodes: a plain-http URL exactly in
   * debug mode, the site domain right after the scheme, the verify path last.
   */
  function VerificationUrl(c: Settings, u: Uuid): (r: string)
    requires HasHost(c)
    ensures "http://" <= r <==> c.debug
    ensures "https://" <= r <==> !c.debug
    ensures var d := |Protocol(c.debug)| + 3;
      d + |SiteDomain(c)| <= |r| && r[d..d + |SiteDomain(c)|] == SiteDomain(c)
    ensures var p := VerificationPath(c.mountPrefix, u);
      |p| <= |r| && r[|r| - |p|..] == p
    ensures |r| == |Protocol(c.debug)| + 3 + |SiteDomain(c)| + |VerificationPath(c.mountPrefix, u)|
  {
    var head := Protocol(c.debug) + "://";
    var url := head + SiteDomain(c) + VerificationPath(c.mountPrefix, u);
    assert url[..|head|] == head;
    assert url[4] == head[4] == if c.debug then ':' else 's';
    assert url[|head|..|head| + |SiteDomain(c)|] == SiteDomain(c);
    url
  }

  /** Under one configuration, distinct staff members get distinct verification URLs. */
  lemma {:induction false} VerificationUrlInjective(c: Settings, u: Uuid, v: Uuid)
    requires HasHost(c)
    requires VerificationUrl(c, u) == VerificationUrl(c, v)
    ensures u == v
  {
    var url := VerificationUrl(c, u);
    var p, q := VerificationPath(c.mountPrefix, u), VerificationPath(c.mountPrefix, v);
    assert |url| == |Protocol(c.debug)| + 3 + |SiteDomain(c)| + |p|;
    assert |url| == |Protocol(c.debug)| + 3 + |SiteDomain(c)| + |q|;
    assert p == url[|url| - |p|..] == q;
    FramedEqual("/" + c.mountPrefix + "verify/", u, v, "/");
  }

  /** The media-relative path a staff member's code image is written to and recorded under. */
  function QrRelativePath(u: Uuid): (r: string)
    ensures |r| == |u| + 16
    ensures r[..12] == "qr_codes/qr_"
    ensures r[12..|r| - 4] == u
    ensures r[|r| - 4..] == ".png"
  {
    "qr_codes/qr_" + u + ".png"
  }

  /** The image path is keyed by the uuid alone: distinct uuids never share an image. */
  lemma {:induction false} QrRelativePathInjective(u: Uuid, v: Uuid)
    requires QrRelativePath(u) == QrRelativePath(v)
    ensures u == v
  {
    FramedEqual("qr_codes/qr_", u, v, ".png");
  }

  const ForwardedForHeader := "HTTP_X_FORWARDED_FOR"
  const RemoteAddrHeader := "REMOTE_ADDR"

  /**
   * The client address of a request, read from its META map: the first
   * comma-separated piece of X-Forwarded-For when that header is present and
   * non-empty, otherwise REMOTE_ADDR (None when that is missing too).
   */
  function ClientIp(meta: map<string, string>): (r: Option<string>)
    ensures ForwardedForHeader in meta && meta[ForwardedForHeader] != "" ==>
      r.Some? && r.value <= meta[ForwardedForHeader] && ',' !in r.value &&
      (|r.value| < |meta[ForwardedForHeader]| ==> meta[ForwardedForHeader][|r.value|] == ',') &&
      (',' !in meta[ForwardedForHeader] ==> r.value == meta[ForwardedForHeader])
    ensures !(ForwardedForHeader in meta && meta[ForwardedForHeader] != "") ==>
      (r.Some? <==> RemoteAddrHeader in meta) &&
      (r.Some? ==> r.value == meta[RemoteAddrHeader])
  {
    if ForwardedForHeader in meta && meta[ForwardedForHeader] != "" then
      Some(FirstField(meta[ForwardedForHeader], ','))
    else if RemoteAddrHeader in meta then
      Some(meta[RemoteAddrHeader])
    else
      None
  }
}
