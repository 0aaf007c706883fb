/** Time-to-live eviction of access points and clients
    (SATpwn.py `_cleanup_memory`). The periods depend on the top-level mode
    only: the literal mode `drive-by` gets the short ones; every other mode,
    `auto` included whatever sub-mode it runs, gets the long ones. */
module Eviction {
  import opened Records

  function ApTtl(mode: string): int
  {
    if mode == DRIVE_BY then DRIVE_BY_AP_EXPIRY_SECONDS else AP_EXPIRY_SECONDS
  }

  function ClientTtl(mode: string): int
  {
    if mode == DRIVE_BY then DRIVE_BY_CLIENT_EXPIRY_SECONDS else CLIENT_EXPIRY_SECONDS
  }

  /** A record last seen at `lastSeen` has expired at `now` under `ttl`. */
  predicate Expired(lastSeen: int, now: int, ttl: int)
  {
    now - lastSeen > ttl
  }

  /** The clients that have not expired. */
  function KeepClients(cs: map<string, Client>, now: int, ttl: int): map<string, Client>
  {
    map c | c in cs && !Expired(cs[c].lastSeen, now, ttl) :: cs[c]
  }

  /** The access points that have not expired. */
  function KeepAps(m: Memory, now: int, ttl: int): Memory
  {
    map k | k in m && !Expired(m[k].lastSeen, now, ttl) :: m[k]
  }

  /** The memory after a sweep: expired access points removed with all
      their clients, then expired clients removed from the survivors. */
  function Evict(m: Memory, now: int, apTtl: int, clientTtl: int): Memory
  {
    var kept := KeepAps(m, now, apTtl);
    map k | k in kept :: kept[k].(clients := KeepClients(kept[k].clients, now, clientTtl))
  }

  /** Eviction is safe and exact: an access point survives precisely when
      it is within its period; a survivor keeps every field but its
      clients; a client survives precisely when it and its access point are
      within their periods. */
  lemma EvictExact(m: Memory, now: int, apTtl: int, clientTtl: int, k: string, c: string)
    ensures k in Evict(m, now, apTtl, clientTtl) <==> k in m && !Expired(m[k].lastSeen, now, apTtl)
    ensures k in Evict(m, now, apTtl, clientTtl) ==>
              Evict(m, now, apTtl, clientTtl)[k] == m[k].(clients := Evict(m, now, apTtl, clientTtl)[k].clients)
    ensures k in Evict(m, now, apTtl, clientTtl) ==>
              (c in Evict(m, now, apTtl, clientTtl)[k].clients <==>
                 c in m[k].clients && !Expired(m[k].clients[c].lastSeen, now, clientTtl))
    ensures k in Evict(m, now, apTtl, clientTtl) && c in Evict(m, now, apTtl, clientTtl)[k].clients ==>
              Evict(m, now, apTtl, clientTtl)[k].clients[c] == m[k].clients[c]
  {
  }

  /** A second sweep at the same time removes nothing more. */
  lemma EvictIdempotent(m: Memory, now: int, apTtl: int, clientTtl: int)
    ensures Evict(Evict(m, now, apTtl, clientTtl), now, apTtl, clientTtl) == Evict(m, now, apTtl, clientTtl)
  {
    var once := Evict(m, now, apTtl, clientTtl);
    var twice := Evict(once, now, apTtl, clientTtl);
    assert twice.Keys == once.Keys;
    forall k | k in once ensures twice[k] == once[k] {
      assert twice[k].clients == once[k].clients;
    }
  }

  /** In `drive-by` mode a record last seen 1900 s ago is evicted; in every
      other mode, `auto` included, it is kept. */
  lemma DriveByShortensRetention(m: Memory, now: int, mode: string, k: string)
    requires k in m && now - m[k].lastSeen == 1900
    ensures mode == DRIVE_BY ==> k !in Evict(m, now, ApTtl(mode), ClientTtl(mode))
    ensures mode != DRIVE_BY ==> k in Evict(m, now, ApTtl(mode), ClientTtl(mode))
  {
  }

  /** The two phases of the sweep make up `Evict`. */
  lemma EvictAfterPhases(m0: Memory, m1: Memory, m2: Memory, now: int, apTtl: int, clientTtl: int)
    requires m1 == KeepAps(m0, now, apTtl)
    requires m2.Keys == m1.Keys
    requires forall k :: k in m1 ==> m2[k] == m1[k].(clients := KeepClients(m1[k].clients, now, clientTtl))
    ensures m2 == Evict(m0, now, apTtl, clientTtl)
  {
    var e := Evict(m0, now, apTtl, clientTtl);
    assert m2.Keys == e.Keys;
  }
}
