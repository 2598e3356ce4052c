// Selector configuration. Durations are in nanoseconds.
module PathConfig {
  import opened Durations

  const PATH_RELAY_QUIC := "relay_quic"
  const PATH_GRPC_TUNNEL := "grpc_tunnel"

  datatype Config = Config(
    enabled: bool,
    order: seq<string>,
    probeTimeout: int,
    ladderTimeout: int,
    healthInterval: int,
    failoverCooldown: int,
    softFail: bool)
  {
    predicate Usable() {
      order != [] && probeTimeout > 0 && ladderTimeout > 0 && healthInterval > 0 && failoverCooldown > 0
    }

    /** Every field that is set is kept; zero and negative ones get the defaults. */
    function Normalize(): (c: Config)
      ensures c.Usable()
      ensures c.enabled == enabled && c.softFail == softFail
      ensures Usable() <==> c == this
      ensures c.Normalize() == c
      ensures c.order == if order != [] then order else ["relay_quic", "grpc_tunnel"]
      ensures c.probeTimeout == if probeTimeout > 0 then probeTimeout else 5_000_000_000
      ensures c.ladderTimeout == if ladderTimeout > 0 then ladderTimeout else 45_000_000_000
      ensures c.healthInterval == if healthInterval > 0 then healthInterval else 10_000_000_000
      ensures c.failoverCooldown == if failoverCooldown > 0 then failoverCooldown else 15_000_000_000
      decreases !Usable()
    {
      var d := DefaultConfig();
      var c := this.(
        order := if order == [] then d.order else order,
        probeTimeout := if probeTimeout <= 0 then d.probeTimeout else probeTimeout,
        ladderTimeout := if ladderTimeout <= 0 then d.ladderTimeout else ladderTimeout,
        healthInterval := if healthInterval <= 0 then d.healthInterval else healthInterval,
        failoverCooldown := if failoverCooldown <= 0 then d.failoverCooldown else failoverCooldown);
      c
    }
  }

  function DefaultConfig(): Config {
    Config(false, [PATH_RELAY_QUIC, PATH_GRPC_TUNNEL],
           5 * SECOND, 45 * SECOND, 10 * SECOND, 15 * SECOND, false)
  }
}
