/**
 * The backend's CORS policy (backend/server.js): the allow-list derived once
 * from the environment, and the decision taken for each request's `Origin`.
 *
 * `new URL(o).hostname` is the oracle `hostOf`; `None` means the constructor
 * threw.
 */
module Cors {
  import opened Wrappers
  import opened Strings

  /** The policy as derived at start-up. */
  datatype Config = Config(allowAll: bool, origins: seq<string>, hostnames: seq<string>)

  const DefaultOrigins: seq<string> := ["http://localhost:3000", "http://localhost:5173"]
  const Rejected: string := "Not allowed by CORS"

  /** `(CORS_ALLOW_ALL || '').toLowerCase() === 'true'`. */
  predicate AllowAllFlag(flag: Option<string>) {
    ToLower(OrElse(flag, "")) == "true"
  }

  function TrimAll(xs: seq<string>): (r: seq<string>)
    ensures |r| == |xs| && forall k :: 0 <= k < |xs| ==> r[k] == Trim(xs[k])
  {
    if |xs| == 0 then [] else [Trim(xs[0])] + TrimAll(xs[1..])
  }

  function LowerAll(xs: seq<string>): (r: seq<string>)
    ensures |r| == |xs| && forall k :: 0 <= k < |xs| ==> r[k] == ToLower(xs[k])
  {
    if |xs| == 0 then [] else [ToLower(xs[0])] + LowerAll(xs[1..])
  }

  /** The entries of a comma-separated list, trimmed, empty ones dropped. */
  function ListEntries(list: string): seq<string> {
    NonEmpty(TrimAll(Split(list, ',')))
  }

  /** The configured origins before lower-casing. */
  function RawAllowed(allowAll: bool, allowedOrigins: Option<string>): seq<string> {
    if allowAll then ["*"]
    else if Truthy(allowedOrigins) then ListEntries(allowedOrigins.value)
    else DefaultOrigins
  }

  /** `o` without a leading `scheme://`, the scheme being a non-empty run without colons. */
  function DropScheme(o: string): string {
    var i := ColonAt(o);
    if 0 < i && i + 3 <= |o| && o[i..i + 3] == "://" then o[i + 3..] else o
  }

  /** The index of the first colon, or the length when there is none. */
  function ColonAt(s: string): (i: nat)
    ensures i <= |s| && ':' !in s[..i] && (i < |s| ==> s[i] == ':')
  {
    if |s| == 0 then 0
    else if s[0] == ':' then 0
    else
      var i := 1 + ColonAt(s[1..]);
      assert s[..i] == [s[0]] + s[1..][..i - 1];
      i
  }

  /** The hostname an allowed origin contributes to the port-agnostic list. */
  function HostnameOf(o: string, hostOf: string -> Option<string>): string {
    match hostOf(o)
    case Some(h) => ToLower(h)
    case None =>
      var rest := DropScheme(o);
      ToLower(rest[..ColonAt(rest)])
  }

  /** The port-agnostic hostnames: one per listed origin other than `*`. */
  function Hostnames(origins: seq<string>, hostOf: string -> Option<string>): seq<string> {
    if |origins| == 0 then []
    else if origins[0] == "*" then Hostnames(origins[1..], hostOf)
    else [HostnameOf(origins[0], hostOf)] + Hostnames(origins[1..], hostOf)
  }

  /** Every listed origin other than `*` contributes its hostname ... */
  lemma {:induction false} HostnamesCover(origins: seq<string>, hostOf: string -> Option<string>, k: nat)
    requires k < |origins| && origins[k] != "*"
    ensures HostnameOf(origins[k], hostOf) in Hostnames(origins, hostOf)
  {
    if k > 0 {
      HostnamesCover(origins[1..], hostOf, k - 1);
    }
  }

  /** ... and nothing else is in the hostname list. */
  lemma {:induction false} HostnamesFromOrigins(origins: seq<string>, hostOf: string -> Option<string>, h: string)
    requires h in Hostnames(origins, hostOf)
    ensures exists k :: 0 <= k < |origins| && origins[k] != "*" && h == HostnameOf(origins[k], hostOf)
  {
    if origins[0] != "*" && h == HostnameOf(origins[0], hostOf) {
    } else {
      HostnamesFromOrigins(origins[1..], hostOf, h);
      var k :| 0 <= k < |origins[1..]| && origins[1..][k] != "*" && h == HostnameOf(origins[1..][k], hostOf);
      assert origins[k + 1] == origins[1..][k];
    }
  }

  /** The policy from `CORS_ALLOW_ALL` and `ALLOWED_ORIGINS`. */
  function Configure(allowAllFlag: Option<string>, allowedOrigins: Option<string>, hostOf: string -> Option<string>): Config {
    var allowAll := AllowAllFlag(allowAllFlag);
    var origins := LowerAll(RawAllowed(allowAll, allowedOrigins));
    Config(allowAll, origins, Hostnames(origins, hostOf))
  }

  /** The decision for one request: `Success(true)` lets it through, a `Failure` is the
      error handed to the callback. */
  function Decide(cfg: Config, origin: Option<string>, hostOf: string -> Option<string>): Result<bool, string> {
    if cfg.allowAll || !Truthy(origin) then Success(true)
    else
      var lower := ToLower(origin.value);
      if lower in cfg.origins || "*" in cfg.origins then Success(true)
      else match hostOf(origin.value)
        case Some(h) => if ToLower(h) in cfg.hostnames then Success(true) else Failure(Rejected)
        case None => Failure(Rejected)
  }

  /** With the allow-all flag every origin passes; otherwise a request passes exactly when
      it has no origin, its lower-cased origin is listed, the list holds `*`, or its
      hostname is one of the listed hostnames whatever the port; any other request is
      refused with `Not allowed by CORS`. */
  lemma DecideIff(cfg: Config, origin: Option<string>, hostOf: string -> Option<string>)
    ensures cfg.allowAll ==> Decide(cfg, origin, hostOf) == Success(true)
    ensures !cfg.allowAll ==>
              (Decide(cfg, origin, hostOf) == Success(true) <==>
                 !Truthy(origin)
                 || ToLower(origin.value) in cfg.origins
                 || "*" in cfg.origins
                 || (hostOf(origin.value).Some? && ToLower(hostOf(origin.value).value) in cfg.hostnames))
    ensures Decide(cfg, origin, hostOf) != Success(true) ==> Decide(cfg, origin, hostOf) == Failure(Rejected)
  {
  }

  /** An origin whose hostname is that of a listed origin passes, whatever its port. */
  lemma SameHostPasses(allowAllFlag: Option<string>, allowedOrigins: Option<string>, hostOf: string -> Option<string>,
                       k: nat, origin: string)
    requires k < |Configure(allowAllFlag, allowedOrigins, hostOf).origins|
    requires Configure(allowAllFlag, allowedOrigins, hostOf).origins[k] != "*"
    requires origin != [] && hostOf(origin).Some?
    requires ToLower(hostOf(origin).value) == HostnameOf(Configure(allowAllFlag, allowedOrigins, hostOf).origins[k], hostOf)
    ensures Decide(Configure(allowAllFlag, allowedOrigins, hostOf), Some(origin), hostOf) == Success(true)
  {
    HostnamesCover(Configure(allowAllFlag, allowedOrigins, hostOf).origins, hostOf, k);
  }

  /** Every entry of the derived list is lower-case, and none is empty. */
  lemma ConfigureIsLowerCase(allowAllFlag: Option<string>, allowedOrigins: Option<string>, hostOf: string -> Option<string>)
    ensures forall k :: 0 <= k < |Configure(allowAllFlag, allowedOrigins, hostOf).origins| ==>
              ToLower(Configure(allowAllFlag, allowedOrigins, hostOf).origins[k])
              == Configure(allowAllFlag, allowedOrigins, hostOf).origins[k]
              && Configure(allowAllFlag, allowedOrigins, hostOf).origins[k] != []
  {
    var raw := RawAllowed(AllowAllFlag(allowAllFlag), allowedOrigins);
    forall k | 0 <= k < |raw| ensures raw[k] != [] {
    }
    forall k | 0 <= k < |raw| ensures ToLower(ToLower(raw[k])) == ToLower(raw[k]) {
      LowerIdempotent(raw[k]);
    }
  }

  lemma LowerIdempotent(s: string)
    ensures ToLower(ToLower(s)) == ToLower(s)
  {
    assert forall k :: 0 <= k < |s| ==> LowerChar(LowerChar(s[k])) == LowerChar(s[k]);
  }

  /** An origin written in `ALLOWED_ORIGINS`, in any ASCII case and with any spaces around
      it, lets that origin through in any ASCII case. */
  lemma ListedOriginPasses(allowedOrigins: string, k: nat, origin: string, hostOf: string -> Option<string>)
    requires k < |Split(allowedOrigins, ',')|
    requires ToLower(Trim(Split(allowedOrigins, ',')[k])) == ToLower(origin) && origin != []
    ensures Decide(Configure(None, Some(allowedOrigins), hostOf), Some(origin), hostOf) == Success(true)
  {
    var fields := TrimAll(Split(allowedOrigins, ','));
    assert fields[k] == Trim(Split(allowedOrigins, ',')[k]);
    assert fields[k] != [];
    NonEmptyKeeps(fields, k);
    var raw := NonEmpty(fields);
    var j :| 0 <= j < |raw| && raw[j] == fields[k];
    assert allowedOrigins != [];
    assert LowerAll(raw)[j] == ToLower(origin);
  }

  /** `NonEmpty` keeps every non-empty element. */
  lemma {:induction false} NonEmptyKeeps(xs: seq<string>, k: nat)
    requires k < |xs| && xs[k] != []
    ensures exists j :: 0 <= j < |NonEmpty(xs)| && NonEmpty(xs)[j] == xs[k]
  {
    if k == 0 {
      assert NonEmpty(xs)[0] == xs[0];
    } else {
      NonEmptyKeeps(xs[1..], k - 1);
      var j :| 0 <= j < |NonEmpty(xs[1..])| && NonEmpty(xs[1..])[j] == xs[1..][k - 1];
      if xs[0] == [] {
        assert NonEmpty(xs) == NonEmpty(xs[1..]);
      } else {
        assert NonEmpty(xs)[j + 1] == xs[k];
      }
    }
  }
}
