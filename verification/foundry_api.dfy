/** The player probe against a Foundry server's `/api/status` endpoint.
    The HTTP exchange itself is an input: `None` stands for any failure
    (transport error, timeout, non-2xx status, unparsable body). */
module FoundryApi {
  import opened Common

  const StatusPath: string := "/api/status"
  const ProbeTimeoutSeconds: nat := 10
  const ConnectionFailed: string := "connection failed"

  /** Hostname fragments that mark a cluster-internal (plain HTTP) target. */
  const InternalMarkers: seq<string> := ["localhost", "127.0.0.1", ".svc.cluster.local", ".k8s.orb.local"]

  /** The request the probe sends. */
  datatype ProbeRequest = ProbeRequest(url: string, authorization: string, verifyTls: bool, timeoutSeconds: nat)

  /** The fields of a successful `/api/status` body the probe reads. */
  datatype StatusBody = StatusBody(users: Option<int>, world: Option<Json>)

  /** The dict `check_players` returns; `error` is absent on success. */
  datatype ProbeReport = ProbeReport(connectedPlayers: int, worldActive: Option<Json>, error: Option<string>, checkedAt: string)

  predicate IsInternal(hostname: string) {
    Contains(hostname, InternalMarkers[0]) || Contains(hostname, InternalMarkers[1])
    || Contains(hostname, InternalMarkers[2]) || Contains(hostname, InternalMarkers[3])
  }

  function Scheme(hostname: string): (r: string)
    ensures r == "http" || r == "https"
    ensures r == "http" <==>
      (Contains(hostname, "localhost") || Contains(hostname, "127.0.0.1")
       || Contains(hostname, ".svc.cluster.local") || Contains(hostname, ".k8s.orb.local"))
  {
    if IsInternal(hostname) then "http" else "https"
  }

  /** TLS verification is disabled only for loopback targets. */
  function VerifyTls(hostname: string): (r: bool)
    ensures !r <==> StartsWith(hostname, "localhost") || StartsWith(hostname, "127.0.0.1")
  {
    !(StartsWith(hostname, "localhost") || StartsWith(hostname, "127.0.0.1"))
  }

  function Request(hostname: string, adminKey: string): (r: ProbeRequest)
    ensures r.url == Scheme(hostname) + "://" + hostname + StatusPath
    ensures r.authorization == "Bearer " + adminKey
    ensures r.verifyTls == VerifyTls(hostname)
    ensures r.timeoutSeconds == 10
  {
    ProbeRequest(Scheme(hostname) + "://" + hostname + StatusPath, "Bearer " + adminKey,
                 VerifyTls(hostname), ProbeTimeoutSeconds)
  }

  /** `check_players`: maps the (abstract) HTTP outcome to the report dict.
      `now` is the ISO timestamp `datetime.now()` would give. */
  function CheckPlayers(response: Option<StatusBody>, now: string): (r: ProbeReport)
    ensures r.checkedAt == now
    ensures response.Some? ==>
      && r.error.None?
      && r.connectedPlayers == response.value.users.GetOr(0)
      && r.worldActive == Some(response.value.world.GetOr(JBool(false)))
    ensures response.None? ==>
      r.connectedPlayers == -1 && r.error == Some(ConnectionFailed) && r.worldActive.None?
  {
    match response
    case Some(body) => ProbeReport(body.users.GetOr(0), Some(body.world.GetOr(JBool(false))), None, now)
    case None => ProbeReport(-1, None, Some(ConnectionFailed), now)
  }

  /** A failed probe is never reported as an empty server, and a successful
      one never carries an error: the two outcomes are told apart by `error`. */
  lemma FailureNeverLooksEmpty(response: Option<StatusBody>, now: string)
    ensures CheckPlayers(response, now).error.Some? <==> response.None?
    ensures response.None? ==> CheckPlayers(response, now).connectedPlayers != 0
    ensures response.Some? && response.value.users.Some? && response.value.users.value >= 0 ==>
      CheckPlayers(response, now).connectedPlayers >= 0
  {
  }

  /** The license pipeline probes the current holder at
      `foundry-<name>.<namespace>.svc.cluster.local`: plain HTTP, TLS verification on. */
  lemma ClusterServiceProbeIsPlainHttp(name: string, namespace: string, adminKey: string)
    ensures var h := "foundry-" + name + "." + namespace + ".svc.cluster.local";
      && Request(h, adminKey).url == "http://" + h + StatusPath
      && Request(h, adminKey).verifyTls
  {
    var h := "foundry-" + name + "." + namespace + ".svc.cluster.local";
    var tail := ".svc.cluster.local";
    assert OccursAt(h, tail, |h| - |tail|) by {
      assert h[|h| - |tail|..|h|] == tail;
    }
    assert Contains(h, tail);
    assert h[0] == 'f';
    assert h[..9][0] == 'f';
  }
}
