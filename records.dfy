/** The records the plugin keeps in memory, its operating modes and its
    configuration constants. */
module Records {

  /** The five operating modes, in the order the plugin lists them; the
      first one is the default. */
  const STRICT: string := "strict"
  const LOOSE: string := "loose"
  const DRIVE_BY: string := "drive-by"
  const RECON: string := "recon"
  const AUTO: string := "auto"
  const MODES: seq<string> := [STRICT, LOOSE, DRIVE_BY, RECON, AUTO]
  const DEFAULT_MODE: string := MODES[0]

  /** The plugin version written into every saved document. */
  const VERSION: string := "x88.0.7"

  /** Expiry periods, in seconds. */
  const AP_EXPIRY_SECONDS: int := 3600 * 48
  const CLIENT_EXPIRY_SECONDS: int := 3600 * 24
  const DRIVE_BY_AP_EXPIRY_SECONDS: int := 1800
  const DRIVE_BY_CLIENT_EXPIRY_SECONDS: int := 900

  /** A client seen associated with an access point. `packets` is reserved
      and never incremented. */
  datatype Client = Client(firstSeen: int, lastSeen: int, packets: int)

  /** One remembered access point. `attackHistory`, `handshakes`,
      `pmkidAttempts` and `score` are reserved fields: they are written as
      empty or zero when the record is created and nothing changes them. */
  datatype AccessPoint = AccessPoint(
    ssid: string,
    firstSeen: int,
    lastSeen: int,
    rssi: int,
    channel: int,
    encryption: string,
    clients: map<string, Client>,
    attackHistory: seq<string>,
    handshakes: int,
    pmkidAttempts: int,
    score: int)

  /** The memory: access points keyed by their lower-cased address. */
  type Memory = map<string, AccessPoint>

  /** Every record (and every client record) was first seen no later than
      it was last seen, and last seen no later than `now`. */
  ghost predicate Chronological(m: Memory, now: int)
  {
    forall k :: k in m ==>
      && m[k].firstSeen <= m[k].lastSeen <= now
      && forall c :: c in m[k].clients ==>
           m[k].clients[c].firstSeen <= m[k].clients[c].lastSeen <= now
  }
}
