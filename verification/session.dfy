/** The pure parts of the control-API client: the region-to-host table, the
    base64url padding of the session token's claims segment, and the lookup
    of a device's relay in the device listing. */
module Session {
  import opened Wrappers
  import opened Errors
  import opened Text

  /** `EzvizConfig.REGIONS`: region name to API host code. */
  const Regions: map<string, string> := map[
    "Europe" := "ieu",
    "Africa" := "ieu",
    "Asia" := "isgp",
    "NorthAmerica" := "ius",
    "Oceania" := "ius",
    "SouthAmerica" := "isa"
  ]

  /** The code an unknown region falls back to. */
  const DefaultRegionCode: string := "ieu"

  /** `REGIONS.get(region, "ieu")`: one of the four host codes; an unknown
      region gets Europe's. */
  function RegionCode(region: string): (code: string)
    ensures code in {"ieu", "isgp", "ius", "isa"}
    ensures region !in Regions ==> code == Regions["Europe"]
    ensures region in Regions ==> code == Regions[region]
  {
    if region in Regions then Regions[region] else DefaultRegionCode
  }

  /** `EzvizAPI.api_url`: the `https://api` prefix, the region's host code,
      then the `.ezvizlife.com` domain; the code can be read back from the
      address. */
  function ApiUrl(region: string): (url: string)
    ensures |url| == |ApiPrefix| + |RegionCode(region)| + |ApiDomain|
    ensures url[..|ApiPrefix|] == ApiPrefix
    ensures url[|url| - |ApiDomain|..] == ApiDomain
    ensures url[|ApiPrefix|..|url| - |ApiDomain|] == RegionCode(region)
    ensures region !in Regions ==> url == ApiPrefix + DefaultRegionCode + ApiDomain
  {
    ThreeParts(ApiPrefix, RegionCode(region), ApiDomain);
    ApiPrefix + RegionCode(region) + ApiDomain
  }

  /** The three parts of `a + b + c`, by offsets. */
  lemma ThreeParts(a: string, b: string, c: string)
    ensures var s := a + b + c;
      && s[..|a|] == a
      && s[|s| - |c|..] == c
      && s[|a|..|s| - |c|] == b
  {
  }

  const ApiPrefix: string := "https://api"
  const ApiDomain: string := ".ezvizlife.com"

  /** Two regions are served by the same API address exactly when they map
      to the same host code. */
  lemma {:induction false} SameApiUrlIffSameCode(a: string, b: string)
    ensures ApiUrl(a) == ApiUrl(b) <==> RegionCode(a) == RegionCode(b)
  {
    if ApiUrl(a) == ApiUrl(b) {
      var u := ApiUrl(a);
      assert RegionCode(a) == u[|ApiPrefix|..|u| - |ApiDomain|] == RegionCode(b);
    }
  }

  /** `n` copies of `c`. */
  function Repeat(c: char, n: nat): (r: string)
    ensures |r| == n && forall i :: 0 <= i < n ==> r[i] == c
  {
    seq(n, _ => c)
  }

  /** The padding `get_vtdu_tokens` applies before base64url-decoding the
      claims segment: `=` up to the next multiple of 4 (section 3.2 of
      RFC 4648), nothing when the length already is one. */
  function PadBase64(p: string): (r: string)
    ensures |r| % 4 == 0
    ensures |p| <= |r| <= |p| + 3
    ensures r[..|p|] == p
    ensures forall i :: |p| <= i < |r| ==> r[i] == '='
    ensures |p| % 4 == 0 ==> r == p
  {
    var padding := 4 - |p| % 4;
    if padding != 4 then p + Repeat('=', padding) else p
  }

  /** The claims segment of the session token, padded for decoding, as
      `get_vtdu_tokens` computes it before the base64 and JSON steps: the
      auth server address must be known, and the token must split on `.`
      into exactly three parts (the compact form of section 7.1 of RFC 7515). */
  function ClaimsSegment(authUrl: Option<string>, sessionId: string): (r: Result<string, Error>)
    ensures (authUrl.None? || authUrl.value == "") <==> r == Failure(AuthUrlNotSet)
    ensures r == Failure(InvalidJwt) <==>
      authUrl.Some? && authUrl.value != "" && Count(sessionId, '.') != 2
    ensures r.Success? ==> |r.value| % 4 == 0
  {
    if authUrl.None? || authUrl.value == "" then Failure(AuthUrlNotSet)
    else
      var parts := Split(sessionId, '.');
      if |parts| != 3 then Failure(InvalidJwt)
      else Success(PadBase64(parts[1]))
  }

  /** A three-part token `header.claims.signature` yields its padded claims
      segment. */
  lemma ClaimsOfThreePartToken(authUrl: string, header: string, claims: string, signature: string)
    requires authUrl != ""
    requires '.' !in header && '.' !in claims && '.' !in signature
    ensures ClaimsSegment(Some(authUrl), header + "." + claims + "." + signature)
         == Success(PadBase64(claims))
  {
    SplitNoSeparator(signature, '.');
    SplitPrefix(claims, '.', signature);
    SplitPrefix(header, '.', claims + "." + signature);
    assert header + "." + claims + "." + signature == header + ['.'] + (claims + ['.'] + signature);
  }

  /** A resource of the device listing (`resourceInfos` entry). */
  datatype Resource = Resource(deviceSerial: string, resourceId: string, resourceType: Option<int>)

  /** The first-hop relay of a resource (`VTM` entry). */
  datatype VtmInfo = VtmInfo(externalIp: string, port: nat)

  /** The parts of the device listing the stream negotiation reads. */
  datatype DeviceListing = DeviceListing(resourceInfos: seq<Resource>, vtm: map<string, VtmInfo>)

  /** `res["deviceSerial"] == serial and res.get("resourceType", 0) > 0`. */
  predicate Selectable(res: Resource, serial: string) {
    res.deviceSerial == serial && (if res.resourceType.Some? then res.resourceType.value else 0) > 0
  }

  /** No resource of the list is the device's. */
  predicate NoneSelectable(resources: seq<Resource>, serial: string) {
    forall i :: 0 <= i < |resources| ==> !Selectable(resources[i], serial)
  }

  /** Resource `i` is the device's and no earlier one is. */
  predicate IsFirstSelectable(resources: seq<Resource>, serial: string, i: int) {
    && 0 <= i < |resources|
    && Selectable(resources[i], serial)
    && forall j :: 0 <= j < i ==> !Selectable(resources[j], serial)
  }

  /** Reference definition of the lookup: the index of the device's first
      resource, found by recursion on the list. */
  function FirstSelectable(resources: seq<Resource>, serial: string): (k: Option<nat>)
    ensures k.Some? ==> IsFirstSelectable(resources, serial, k.value)
    ensures k.None? <==> NoneSelectable(resources, serial)
    ensures forall i :: IsFirstSelectable(resources, serial, i) ==> k == Some(i)
    decreases |resources|
  {
    if |resources| == 0 then None
    else if Selectable(resources[0], serial) then Some(0)
    else
      match FirstSelectable(resources[1..], serial)
      case None => None
      case Some(k) => Some(k + 1)
  }

  /** The device lookup loop of `capture` and `_get_stream_info`: the first
      resource with the serial and a positive resource type, or not found. */
  method FindResource(resources: seq<Resource>, serial: string) returns (r: Result<Resource, Error>)
    ensures r.Success? ==> exists i :: (0 <= i < |resources| && resources[i] == r.value
      && Selectable(resources[i], serial)
      && forall j :: 0 <= j < i ==> !Selectable(resources[j], serial))
    ensures r.Failure? <==> NoneSelectable(resources, serial)
    ensures r.Failure? ==> r.error == DeviceNotFound
    ensures r.Success? <==> FirstSelectable(resources, serial).Some?
    ensures r.Success? ==> r.value == resources[FirstSelectable(resources, serial).value]
  {
    var i := 0;
    while i < |resources|
      invariant 0 <= i <= |resources|
      invariant forall j :: 0 <= j < i ==> !Selectable(resources[j], serial)
    {
      if Selectable(resources[i], serial) {
        assert IsFirstSelectable(resources, serial, i);
        return Success(resources[i]);
      }
      i := i + 1;
    }
    return Failure(DeviceNotFound);
  }

  /** Reference definition of the relay lookup in a fetched listing: the
      relay entry of the device's first resource; the device must have a
      resource, and that resource a relay entry. */
  function SelectedRelay(listing: DeviceListing, serial: string): (r: Result<VtmInfo, Error>)
    ensures r == Failure(DeviceNotFound) <==> NoneSelectable(listing.resourceInfos, serial)
    ensures r == Failure(VtmInfoNotFound) <==> exists i :: (IsFirstSelectable(listing.resourceInfos, serial, i)
      && listing.resourceInfos[i].resourceId !in listing.vtm)
    ensures r.Success? <==> exists i :: (IsFirstSelectable(listing.resourceInfos, serial, i)
      && listing.resourceInfos[i].resourceId in listing.vtm)
    ensures r.Success? ==> exists i :: (IsFirstSelectable(listing.resourceInfos, serial, i)
      && listing.resourceInfos[i].resourceId in listing.vtm
      && listing.vtm[listing.resourceInfos[i].resourceId] == r.value)
    ensures r.Failure? ==> r.error == DeviceNotFound || r.error == VtmInfoNotFound
  {
    match FirstSelectable(listing.resourceInfos, serial)
    case None => Failure(DeviceNotFound)
    case Some(k) =>
      var id := listing.resourceInfos[k].resourceId;
      if id in listing.vtm then Success(listing.vtm[id]) else Failure(VtmInfoNotFound)
  }

  /** The relay address of the device: the listing must have been fetched,
      the device found, and its first resource must have a relay entry. */
  method RelayAddress(listing: Option<DeviceListing>, serial: string) returns (r: Result<VtmInfo, Error>)
    ensures listing.None? <==> r == Failure(DeviceListUnavailable)
    ensures listing.Some? ==> r == SelectedRelay(listing.value, serial)
    ensures listing.Some? && NoneSelectable(listing.value.resourceInfos, serial) ==> r == Failure(DeviceNotFound)
    ensures r == Failure(VtmInfoNotFound) <==> listing.Some? && exists i ::
      (IsFirstSelectable(listing.value.resourceInfos, serial, i)
      && listing.value.resourceInfos[i].resourceId !in listing.value.vtm)
    ensures r.Success? ==> listing.Some? && exists i :: (IsFirstSelectable(listing.value.resourceInfos, serial, i)
      && listing.value.resourceInfos[i].resourceId in listing.value.vtm
      && listing.value.vtm[listing.value.resourceInfos[i].resourceId] == r.value)
  {
    if listing.None? {
      return Failure(DeviceListUnavailable);
    }
    var found := FindResource(listing.value.resourceInfos, serial);
    if found.Failure? {
      return Failure(found.error);
    }
    var id := found.value.resourceId;
    if id !in listing.value.vtm {
      return Failure(VtmInfoNotFound);
    }
    return Success(listing.value.vtm[id]);
  }

  /** `tokens["tokens"][0]`, failing when the request returned nothing or an
      empty token list. */
  function FirstToken(tokens: Option<seq<string>>): (r: Result<string, Error>)
    ensures r.Failure? <==> tokens.None? || |tokens.value| == 0
    ensures r.Success? ==> r.value == tokens.value[0]
  {
    if tokens.None? || |tokens.value| == 0 then Failure(TokensUnavailable)
    else Success(tokens.value[0])
  }
}
