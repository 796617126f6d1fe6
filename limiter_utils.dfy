/**
 * Client identity and limiting key: which address a request is attributed to,
 * and the key `res:ip` under which it is counted.
 */
module LimiterUtils {
  import opened Wrappers
  import opened JavaLang
  import opened Exceptions

  /** What the resolver reads from an HTTP request: its headers and the socket's remote address. */
  datatype Request = Request(headers: map<string, string>, remoteAddr: Option<string>)

  /** The proxy headers, in the order they are consulted. */
  const ProxyHeaders: seq<string> :=
    ["X-Forwarded-For", "Proxy-Client-IP", "WL-Proxy-Client-IP", "HTTP_CLIENT_IP", "HTTP_X_FORWARDED_FOR"]

  /** `request.getHeader(name)`: null when the header is absent. */
  function GetHeader(req: Request, name: string): Option<string>
  {
    if name in req.headers then Some(req.headers[name]) else None
  }

  /** A candidate address is passed over when it is null, empty or "unknown" in any letter case. */
  predicate Skipped(v: Option<string>)
  {
    v.None? || v.value == "" || EqualsIgnoreCase("unknown", v.value)
  }

  /** A present value is skipped exactly when it is empty or reads "UNKNOWN" once folded to upper case. */
  lemma SkipRule(s: string)
    ensures Skipped(Some(s)) <==> s == "" || UpperAscii(s) == "UNKNOWN"
  {
    EqualsIgnoreCaseUpper("unknown", s);
    assert UpperAscii("unknown") == "UNKNOWN";
  }

  /**
   * The chain of reassignments of `ipAddress`: the first header in `names`
   * whose value is not skipped, or else the remote address, which is taken
   * as it is.
   */
  function Resolve(req: Request, names: seq<string>): (r: Option<string>)
    ensures r == req.remoteAddr
            || (!Skipped(r) && exists j :: 0 <= j < |names| && r == GetHeader(req, names[j]))
  {
    if names == [] then req.remoteAddr
    else
      var v := GetHeader(req, names[0]);
      if Skipped(v) then Resolve(req, names[1..]) else v
  }

  /**
   * Precedence: when the headers before position `k` are all skipped and the
   * one at `k` is not, that header's value is chosen; when all of them are
   * skipped (`k == |names|`), the remote address is.
   */
  lemma {:induction false} ResolvePrecedence(req: Request, names: seq<string>, k: nat)
    requires k <= |names|
    requires forall j :: 0 <= j < k ==> Skipped(GetHeader(req, names[j]))
    requires k < |names| ==> !Skipped(GetHeader(req, names[k]))
    ensures Resolve(req, names) == if k < |names| then GetHeader(req, names[k]) else req.remoteAddr
  {
    if k > 0 {
      assert Skipped(GetHeader(req, names[0]));
      ResolvePrecedence(req, names[1..], k - 1);
    }
  }

  /**
   * The remote address is used exactly when every header is skipped; otherwise
   * the address chosen is the value of one of the headers and is not skipped.
   */
  lemma {:induction false} ResolveSource(req: Request, names: seq<string>)
    ensures (forall j :: 0 <= j < |names| ==> Skipped(GetHeader(req, names[j])))
            ==> Resolve(req, names) == req.remoteAddr
    ensures (exists j :: 0 <= j < |names| && !Skipped(GetHeader(req, names[j])))
            ==> !Skipped(Resolve(req, names))
                && exists j :: 0 <= j < |names| && Resolve(req, names) == GetHeader(req, names[j])
  {
    if names != [] {
      ResolveSource(req, names[1..]);
      if Skipped(GetHeader(req, names[0])) {
        if exists j :: 0 <= j < |names| && !Skipped(GetHeader(req, names[j])) {
          var j :| 0 <= j < |names| && !Skipped(GetHeader(req, names[j]));
          assert j > 0 && names[1..][j - 1] == names[j];
          var i :| 0 <= i < |names[1..]| && Resolve(req, names[1..]) == GetHeader(req, names[1..][i]);
          assert names[1..][i] == names[i + 1];
        }
        assert forall j :: 0 <= j < |names| - 1 ==> names[1..][j] == names[j + 1];
      }
    }
  }

  /**
   * `getClientIp`'s comma handling: a value holding a comma is cut to the text before the first
   * comma, trimmed; any other value, null included, is returned unchanged. A
   * value made of commas only splits into an empty array, and `[0]` throws.
   */
  function FirstHop(ip: Option<string>): (r: Result<Option<string>, Exception>)
    ensures ip.None? ==> r == Ok(None)
    ensures ip.Some? && ',' !in ip.value ==> r == Ok(ip)
    ensures ip.Some? && ',' in ip.value ==>
              (r.Err? <==> forall k :: 0 <= k < |ip.value| ==> ip.value[k] == ',')
    ensures ip.Some? && ',' in ip.value && r.Ok? ==>
              r.value == Some(Trim(ip.value[..FirstIndex(ip.value, ',')]))
    ensures r.Err? ==> r.error == IndexOutOfBounds
    ensures r.Ok? && r.value.Some? ==> ',' !in r.value.value
  {
    if ip.Some? && ',' in ip.value then
      var parts := Split(ip.value, ',');
      SplitFirst(ip.value, ',');
      if |parts| == 0 then Err(IndexOutOfBounds)
      else
        var hop := Trim(parts[0]);
        assert ',' !in parts[0];
        Ok(Some(hop))
    else Ok(ip)
  }

  /**
   * `getClientIp`: the address the request is attributed to. It never holds a
   * comma, and the call fails only when the chosen value is made of commas.
   */
  function GetClientIp(req: Request): (r: Result<Option<string>, Exception>)
    ensures r.Ok? && r.value.Some? ==> ',' !in r.value.value
    ensures r.Err? <==> var ip := Resolve(req, ProxyHeaders);
                        ip.Some? && |ip.value| > 0 && forall k :: 0 <= k < |ip.value| ==> ip.value[k] == ','
    ensures r.Err? ==> r.error == IndexOutOfBounds
  {
    var ip := Resolve(req, ProxyHeaders);
    assert ip.Some? && |ip.value| > 0 ==> ip.value[0] in ip.value;
    FirstHop(ip)
  }

  /** Java's string concatenation writes a null reference as "null". */
  function Text(ip: Option<string>): string
  {
    match ip
    case Some(s) => s
    case None => "null"
  }

  /**
   * `getRedisKey`: the resource, a colon and the client address. The key
   * fails exactly when the client address does.
   */
  function GetRedisKey(res: string, req: Request): (r: Result<string, Exception>)
    ensures r.Ok? <==> GetClientIp(req).Ok?
    ensures r.Err? ==> r.error == GetClientIp(req).error
    ensures r.Ok? ==> |r.value| == |res| + 1 + |Text(GetClientIp(req).value)|
                      && r.value[..|res|] == res && r.value[|res|] == ':'
                      && r.value[|res| + 1..] == Text(GetClientIp(req).value)
  {
    match GetClientIp(req)
    case Err(e) => Err(e)
    case Ok(ip) => Ok(res + ":" + Text(ip))
  }

  /** For one resource, the key determines the client address text. */
  lemma KeyDeterminesClient(res: string, a: Request, b: Request)
    requires GetRedisKey(res, a).Ok? && GetRedisKey(res, a) == GetRedisKey(res, b)
    ensures Text(GetClientIp(a).value) == Text(GetClientIp(b).value)
  {
    var k := GetRedisKey(res, a).value;
    assert Text(GetClientIp(a).value) == k[|res| + 1..] == Text(GetClientIp(b).value);
  }

  // ---------------------------------------------------------------------------
  // Examples

  /** Java's `trim` leaves a string alone whose ends are above U+0020. */
  lemma TrimUnchanged(s: string)
    requires s != [] && !IsTrimmed(s[0]) && !IsTrimmed(s[|s| - 1])
    ensures Trim(s) == s
  {
    assert TrimStart(s, 0) == 0;
    assert TrimEnd(s, 0, |s|) == |s|;
    assert s[0..|s|] == s;
  }

  /** A request whose first proxy header holds `v`, which is not skipped, resolves through `FirstHop(v)`. */
  lemma FirstHeaderChosen(req: Request, v: string)
    requires GetHeader(req, "X-Forwarded-For") == Some(v) && !Skipped(Some(v))
    ensures GetClientIp(req) == FirstHop(Some(v))
  {
    ResolvePrecedence(req, ProxyHeaders, 0);
  }

  /**
   * A value whose first comma is at `k`, with the text before it starting and
   * ending above U+0020, is cut to exactly that text.
   */
  lemma FirstHopAt(v: string, k: nat)
    requires 0 < k < |v| && v[k] == ',' && ',' !in v[..k]
    requires !IsTrimmed(v[0]) && !IsTrimmed(v[k - 1])
    ensures FirstHop(Some(v)) == Ok(Some(v[..k]))
  {
    assert v[0] in v[..k];
    assert FirstIndex(v, ',') == k;
    TrimUnchanged(v[..k]);
  }

  lemma ForwardedListHop()
    ensures FirstHop(Some("1.2.3.4, 5.6.7.8")) == Ok(Some("1.2.3.4"))
  {
    var v := "1.2.3.4, 5.6.7.8";
    assert v[7] == ',';
    assert v[..7] == "1.2.3.4";
    assert ',' !in v[..7];
    FirstHopAt(v, 7);
  }

  /** A forwarded hop list resolves to its first hop. */
  lemma ForwardedListExample()
    ensures GetClientIp(Request(map["X-Forwarded-For" := "1.2.3.4, 5.6.7.8"], Some("10.0.0.1")))
            == Ok(Some("1.2.3.4"))
  {
    FirstHeaderChosen(Request(map["X-Forwarded-For" := "1.2.3.4, 5.6.7.8"], Some("10.0.0.1")), "1.2.3.4, 5.6.7.8");
    ForwardedListHop();
  }

  /** An "unknown" header in any letter case is passed over for the remote address. */
  lemma UnknownFallsBackExample()
    ensures GetClientIp(Request(map["X-Forwarded-For" := "unknown"], Some("9.9.9.9"))) == Ok(Some("9.9.9.9"))
    ensures GetClientIp(Request(map["X-Forwarded-For" := "UnKnOwN"], Some("9.9.9.9"))) == Ok(Some("9.9.9.9"))
  {
    assert EqualsIgnoreCase("unknown", "UnKnOwN");
    ResolvePrecedence(Request(map["X-Forwarded-For" := "unknown"], Some("9.9.9.9")), ProxyHeaders, 5);
    ResolvePrecedence(Request(map["X-Forwarded-For" := "UnKnOwN"], Some("9.9.9.9")), ProxyHeaders, 5);
  }

  lemma UnknownHopListHop()
    ensures FirstHop(Some("unknown, 1.2.3.4")) == Ok(Some("unknown"))
  {
    var v := "unknown, 1.2.3.4";
    assert v[7] == ',';
    assert v[..7] == "unknown";
    assert ',' !in v[..7];
    FirstHopAt(v, 7);
  }

  /** The skip test looks at the whole value: "unknown" followed by a hop is kept, and cut to "unknown". */
  lemma UnknownHopListExample()
    ensures GetClientIp(Request(map["X-Forwarded-For" := "unknown, 1.2.3.4"], Some("9.9.9.9")))
            == Ok(Some("unknown"))
  {
    FirstHeaderChosen(Request(map["X-Forwarded-For" := "unknown, 1.2.3.4"], Some("9.9.9.9")), "unknown, 1.2.3.4");
    UnknownHopListHop();
  }

  /** The remote address is not filtered: "unknown" and null are returned as they are. */
  lemma RemoteAddressUnfilteredExample()
    ensures GetClientIp(Request(map[], Some("unknown"))) == Ok(Some("unknown"))
    ensures GetClientIp(Request(map[], None)) == Ok(None)
    ensures GetRedisKey("/do", Request(map[], None)) == Ok("/do:null")
  {
    ResolvePrecedence(Request(map[], Some("unknown")), ProxyHeaders, 5);
    ResolvePrecedence(Request(map[], None), ProxyHeaders, 5);
    assert "/do" + ":" + "null" == "/do:null";
  }

  /** A value made of commas only makes the split array empty, so reading `[0]` throws. */
  lemma AllCommasExample()
    ensures GetClientIp(Request(map["X-Forwarded-For" := ","], None)) == Err(IndexOutOfBounds)
  {
    FirstHeaderChosen(Request(map["X-Forwarded-For" := ","], None), ",");
    AllCommasHop();
  }

  lemma AllCommasHop()
    ensures FirstHop(Some(",")) == Err(IndexOutOfBounds)
  {
    var v := ",";
    assert v[0] == ',' && ',' in v;
    assert forall k :: 0 <= k < |v| ==> v[k] == ',';
  }
}
