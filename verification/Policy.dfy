/** The routing policy: which backend a request starts on and which fallbacks it may take. */
module Policy {
  datatype RouteMode = SelfHostedFirst | SelfHostedOnly | CloudFirst | CloudOnly | Hybrid

  datatype InitialBackend = StartCloud | StartSelfHosted | Reject

  datatype Role = CloudRole | FallbackRole

  datatype KeyEntry = KeyEntry(key: string, role: Role)

  datatype Privacy = Privacy(hasSensitiveHeaders: bool, hasPrivateTargetUrl: bool)

  function ChooseInitialBackend(mode: RouteMode, needsCloud: bool): InitialBackend {
    if mode == CloudFirst || mode == CloudOnly || mode == Hybrid then StartCloud
    else if mode == SelfHostedOnly then (if needsCloud then Reject else StartSelfHosted)
    else if needsCloud then StartCloud else StartSelfHosted
  }

  function KeysWithRole(entries: seq<KeyEntry>, role: Role): seq<string> {
    if entries == [] then []
    else (if entries[0].role == role then [entries[0].key] else []) + KeysWithRole(entries[1..], role)
  }

  function AllKeys(entries: seq<KeyEntry>): seq<string> {
    seq(|entries|, i requires 0 <= i < |entries| => entries[i].key)
  }

  datatype Pools = Pools(initial: InitialBackend, cloudKeys: seq<string>, fallbackKeys: seq<string>)

  function SelectKeyPools(mode: RouteMode, initial: InitialBackend, needsCloud: bool, entries: seq<KeyEntry>): Pools {
    if mode != Hybrid then Pools(initial, AllKeys(entries), [])
    else
      var cloudKeys := KeysWithRole(entries, CloudRole);
      var fallbackKeys := KeysWithRole(entries, FallbackRole);
      if cloudKeys != [] then Pools(initial, cloudKeys, fallbackKeys)
      else Pools(if needsCloud then StartCloud else StartSelfHosted, fallbackKeys, [])
  }

  predicate IsFallbackAllowed(mode: RouteMode, privacy: Privacy) {
    (mode == SelfHostedFirst || mode == Hybrid) && !privacy.hasSensitiveHeaders && !privacy.hasPrivateTargetUrl
  }

  predicate MayUseCloudKeys(initial: InitialBackend, mode: RouteMode, privacy: Privacy) {
    initial == StartCloud || (initial == StartSelfHosted && IsFallbackAllowed(mode, privacy))
  }

  predicate IsCloudQuotaFallbackAllowed(mode: RouteMode, needsCloud: bool) {
    (mode == CloudFirst || mode == Hybrid) && !needsCloud
  }
}
