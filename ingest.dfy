/** Ingesting one batch of scan results into the memory
    (the loop body of SATpwn.py `on_unfiltered_ap_list`), specified as a
    fold over the batch, with closed forms per access point and per client. */
module Ingest {
  import opened Common
  import opened Records

  /** A client as the scanner reports it (only its address is used). */
  datatype ClientObservation = ClientObservation(mac: string)

  /** An access point as the scanner reports it. Absent fields are given
      the defaults the plugin reads them with: `""` for text, `0` for
      numbers, no clients. */
  datatype ApObservation = ApObservation(
    mac: string,
    hostname: string,
    rssi: int,
    channel: int,
    encryption: string,
    clients: seq<ClientObservation>)

  /** The memory key of a reported address: the address lower-cased. An
      empty key means the observation is skipped. */
  function Key(mac: string): string
  {
    Lower(mac)
  }

  // ---------------------------------------------------------------------
  // Clients
  // ---------------------------------------------------------------------

  /** Seeing client `ck`: an existing record gets `lastSeen := now`, a new
      one is created with both timestamps `now` and no packets. */
  function TouchClient(cs: map<string, Client>, ck: string, now: int): map<string, Client>
  {
    if ck in cs then cs[ck := cs[ck].(lastSeen := now)] else cs[ck := Client(now, now, 0)]
  }

  function IngestClient(cs: map<string, Client>, c: ClientObservation, now: int): map<string, Client>
  {
    var ck := Key(c.mac);
    if ck == "" then cs else TouchClient(cs, ck, now)
  }

  /** The clients of one access point after its reported clients, in order. */
  function IngestClients(cs: map<string, Client>, obs: seq<ClientObservation>, now: int): map<string, Client>
    decreases |obs|
  {
    if obs == [] then cs
    else IngestClient(IngestClients(cs, obs[..|obs| - 1], now), obs[|obs| - 1], now)
  }

  /** The non-empty keys of the reported clients. */
  function ClientKeys(obs: seq<ClientObservation>): (r: set<string>)
    ensures "" !in r
    decreases |obs|
  {
    if obs == [] then {}
    else
      var ck := Key(obs[|obs| - 1].mac);
      ClientKeys(obs[..|obs| - 1]) + (if ck == "" then {} else {ck})
  }

  /** Reference definition: the client map once every client in `keys` has
      been seen at `now`. */
  function TouchAll(cs: map<string, Client>, keys: set<string>, now: int): (r: map<string, Client>)
    ensures r.Keys == cs.Keys + keys
  {
    map c | c in cs.Keys + keys ::
      if c in keys then (if c in cs then cs[c].(lastSeen := now) else Client(now, now, 0)) else cs[c]
  }

  lemma TouchAllStep(cs: map<string, Client>, keys: set<string>, ck: string, now: int)
    ensures TouchClient(TouchAll(cs, keys, now), ck, now) == TouchAll(cs, keys + {ck}, now)
  {
    var l := TouchClient(TouchAll(cs, keys, now), ck, now);
    var r := TouchAll(cs, keys + {ck}, now);
    assert l.Keys == r.Keys;
    forall c | c in l ensures l[c] == r[c] {
    }
  }

  /** Touching two key sets one after the other is touching their union. */
  lemma TouchAllCompose(cs: map<string, Client>, k1: set<string>, k2: set<string>, now: int)
    ensures TouchAll(TouchAll(cs, k1, now), k2, now) == TouchAll(cs, k1 + k2, now)
  {
    var l := TouchAll(TouchAll(cs, k1, now), k2, now);
    var r := TouchAll(cs, k1 + k2, now);
    assert l.Keys == r.Keys;
    forall c | c in l ensures l[c] == r[c] {
    }
  }

  /** Closed form: ingesting the reported clients touches exactly their
      non-empty keys, whatever the order and however often each appears. */
  lemma {:induction false} IngestClientsClosed(cs: map<string, Client>, obs: seq<ClientObservation>, now: int)
    ensures IngestClients(cs, obs, now) == TouchAll(cs, ClientKeys(obs), now)
    decreases |obs|
  {
    if obs == [] {
      assert TouchAll(cs, {}, now) == cs;
    } else {
      var init := obs[..|obs| - 1];
      IngestClientsClosed(cs, init, now);
      var ck := Key(obs[|obs| - 1].mac);
      if ck == "" {
        assert ClientKeys(obs) == ClientKeys(init);
      } else {
        TouchAllStep(cs, ClientKeys(init), ck, now);
      }
    }
  }

  // ---------------------------------------------------------------------
  // Access points
  // ---------------------------------------------------------------------

  /** The record created on first sight of an access point. */
  function NewAp(o: ApObservation, now: int): AccessPoint
  {
    AccessPoint(o.hostname, now, now, o.rssi, o.channel, o.encryption, map[], [], 0, 0, 0)
  }

  /** The update on a later sight: `lastSeen` and `rssi` are overwritten,
      the network name only by a non-empty one. */
  function TouchAp(ap: AccessPoint, o: ApObservation, now: int): AccessPoint
  {
    ap.(lastSeen := now, rssi := o.rssi, ssid := if o.hostname != "" then o.hostname else ap.ssid)
  }

  /** One observation applied to the record it concerns, if any, clients included. */
  function StepAp(prev: Option<AccessPoint>, o: ApObservation, now: int): AccessPoint
  {
    var ap := if prev.Some? then TouchAp(prev.value, o, now) else NewAp(o, now);
    ap.(clients := IngestClients(ap.clients, o.clients, now))
  }

  /** One observation applied to the memory. */
  function IngestAp(m: Memory, o: ApObservation, now: int): Memory
  {
    var k := Key(o.mac);
    if k == "" then m else m[k := StepAp(Get(m, k), o, now)]
  }

  /** The memory after a batch, processed in order. */
  function IngestBatch(m: Memory, b: seq<ApObservation>, now: int): Memory
    decreases |b|
  {
    if b == [] then m else IngestAp(IngestBatch(m, b[..|b| - 1], now), b[|b| - 1], now)
  }

  /** The non-empty keys the batch reports. */
  function BatchKeys(b: seq<ApObservation>): (r: set<string>)
    ensures "" !in r
    decreases |b|
  {
    if b == [] then {}
    else
      var k := Key(b[|b| - 1].mac);
      BatchKeys(b[..|b| - 1]) + (if k == "" then {} else {k})
  }

  /** The observations of the batch that concern key `k`, in order. */
  function ObsFor(b: seq<ApObservation>, k: string): seq<ApObservation>
    decreases |b|
  {
    if b == [] then []
    else ObsFor(b[..|b| - 1], k) + (if k != "" && Key(b[|b| - 1].mac) == k then [b[|b| - 1]] else [])
  }

  /** The record for one key after the observations that concern it. */
  function FoldAp(prev: Option<AccessPoint>, os: seq<ApObservation>, now: int): Option<AccessPoint>
    decreases |os|
  {
    if os == [] then prev else Some(StepAp(FoldAp(prev, os[..|os| - 1], now), os[|os| - 1], now))
  }

  /** The non-empty network names among the observations, in order. */
  function Names(os: seq<ApObservation>): seq<string>
    decreases |os|
  {
    if os == [] then []
    else Names(os[..|os| - 1]) + (if os[|os| - 1].hostname != "" then [os[|os| - 1].hostname] else [])
  }

  /** The non-empty client keys reported across the observations. */
  function AllClientKeys(os: seq<ApObservation>): set<string>
    decreases |os|
  {
    if os == [] then {} else AllClientKeys(os[..|os| - 1]) + ClientKeys(os[|os| - 1].clients)
  }

  function ClientsOf(prev: Option<AccessPoint>): map<string, Client>
  {
    if prev.Some? then prev.value.clients else map[]
  }

  /** What a record looks like after a non-empty run of observations. */
  ghost predicate FoldedFrom(r: AccessPoint, prev: Option<AccessPoint>, os: seq<ApObservation>, now: int)
    requires |os| > 0
  {
    && r.lastSeen == now
    && r.rssi == os[|os| - 1].rssi
    && r.firstSeen == (if prev.Some? then prev.value.firstSeen else now)
    && r.channel == (if prev.Some? then prev.value.channel else os[0].channel)
    && r.encryption == (if prev.Some? then prev.value.encryption else os[0].encryption)
    && r.ssid == (if Names(os) != [] then Names(os)[|Names(os)| - 1]
                  else if prev.Some? then prev.value.ssid else "")
    && r.clients == TouchAll(ClientsOf(prev), AllClientKeys(os), now)
    && r.attackHistory == (if prev.Some? then prev.value.attackHistory else [])
    && r.handshakes == (if prev.Some? then prev.value.handshakes else 0)
    && r.pmkidAttempts == (if prev.Some? then prev.value.pmkidAttempts else 0)
    && r.score == (if prev.Some? then prev.value.score else 0)
  }

  /** Closed form of a record after its observations: last sight at `now`
      with the last signal strength; first sight, channel and encryption
      from the existing record or else from the first observation; the
      last non-empty name, or the old name if none; every reported client
      touched; reserved fields kept or zero. */
  lemma {:induction false} FoldApShape(prev: Option<AccessPoint>, os: seq<ApObservation>, now: int)
    requires |os| > 0
    ensures FoldAp(prev, os, now).Some?
    ensures FoldedFrom(FoldAp(prev, os, now).value, prev, os, now)
    decreases |os|
  {
    var init := os[..|os| - 1];
    var o := os[|os| - 1];
    IngestClientsClosed(ClientsOf(if init == [] then prev else FoldAp(prev, init, now)) , o.clients, now);
    if init == [] {
      assert Names(os) == Names(init) + (if o.hostname != "" then [o.hostname] else []);
      assert AllClientKeys(os) == ClientKeys(o.clients);
      if prev.None? {
        assert TouchAll(map[], ClientKeys(o.clients), now) == TouchAll(ClientsOf(prev), AllClientKeys(os), now);
      }
    } else {
      FoldApShape(prev, init, now);
      assert init[0] == os[0];
      TouchAllCompose(ClientsOf(prev), AllClientKeys(init), ClientKeys(o.clients), now);
    }
  }

  /** The observations of one key form the run a record is folded over. */
  lemma {:induction false} IngestPerKey(m: Memory, b: seq<ApObservation>, now: int, k: string)
    ensures Get(IngestBatch(m, b, now), k) == FoldAp(Get(m, k), ObsFor(b, k), now)
    decreases |b|
  {
    if b != [] {
      var init := b[..|b| - 1];
      var o := b[|b| - 1];
      IngestPerKey(m, init, now, k);
      if k != "" && Key(o.mac) == k {
        var os := ObsFor(init, k) + [o];
        assert ObsFor(b, k) == os;
        assert os[..|os| - 1] == ObsFor(init, k);
      } else {
        assert ObsFor(b, k) == ObsFor(init, k);
      }
    }
  }

  /** A key has observations in the batch exactly when the batch reports it. */
  lemma {:induction false} ObsForNonEmpty(b: seq<ApObservation>, k: string)
    ensures ObsFor(b, k) != [] <==> k in BatchKeys(b)
    decreases |b|
  {
    if b != [] {
      ObsForNonEmpty(b[..|b| - 1], k);
    }
  }

  /** The batch adds exactly its non-empty keys; no key is removed. */
  lemma {:induction false} IngestBatchKeys(m: Memory, b: seq<ApObservation>, now: int)
    ensures IngestBatch(m, b, now).Keys == m.Keys + BatchKeys(b)
    decreases |b|
  {
    if b != [] {
      IngestBatchKeys(m, b[..|b| - 1], now);
    }
  }

  /** Every key a batch creates is a lower-case address: observations that
      differ only in letter case land on the same record. */
  lemma {:induction false} BatchKeysLower(b: seq<ApObservation>, k: string)
    requires k in BatchKeys(b)
    ensures k != "" && Lower(k) == k
    ensures exists i :: 0 <= i < |b| && Key(b[i].mac) == k
    decreases |b|
  {
    var init := b[..|b| - 1];
    if k in BatchKeys(init) {
      BatchKeysLower(init, k);
      var i :| 0 <= i < |init| && Key(init[i].mac) == k;
      assert b[i] == init[i];
    } else {
      assert Key(b[|b| - 1].mac) == k;
      LowerIdempotent(b[|b| - 1].mac);
    }
  }

  /** What one batch does to one key, as the plugin promises. */
  lemma IngestBatchEffect(m: Memory, b: seq<ApObservation>, now: int, k: string)
    ensures k in IngestBatch(m, b, now) <==> k in m || k in BatchKeys(b)
    ensures k in BatchKeys(b) <==> ObsFor(b, k) != []
    ensures k in m && k !in BatchKeys(b) ==> IngestBatch(m, b, now)[k] == m[k]
    ensures k in BatchKeys(b) ==>
      var r := IngestBatch(m, b, now)[k];
      var os := ObsFor(b, k);
      && r.lastSeen == now
      && r.rssi == os[|os| - 1].rssi
      && (k in m ==> r.firstSeen == m[k].firstSeen && r.channel == m[k].channel
                     && r.encryption == m[k].encryption)
      && (k !in m ==> r.firstSeen == now && r.channel == os[0].channel && r.encryption == os[0].encryption)
      && (r.ssid == (if k in m then m[k].ssid else "") || r.ssid in Names(os))
      && (k in m ==> m[k].clients.Keys <= r.clients.Keys)
      && (forall c :: c in AllClientKeys(os) ==> c in r.clients && r.clients[c].lastSeen == now)
    ensures k in BatchKeys(b) ==>
      ObsFor(b, k) != [] && FoldedFrom(IngestBatch(m, b, now)[k], Get(m, k), ObsFor(b, k), now)
  {
    IngestBatchKeys(m, b, now);
    IngestPerKey(m, b, now, k);
    ObsForNonEmpty(b, k);
    if k in BatchKeys(b) {
      FoldApShape(Get(m, k), ObsFor(b, k), now);
    }
  }

  /** The names a run can leave in a record are exactly the non-empty
      hostnames it reports: an empty hostname never replaces a name. */
  lemma {:induction false} NamesAreHostnames(os: seq<ApObservation>, x: string)
    ensures x in Names(os) <==> x != "" && exists i :: 0 <= i < |os| && os[i].hostname == x
    decreases |os|
  {
    if os != [] {
      var init := os[..|os| - 1];
      NamesAreHostnames(init, x);
      if exists i :: 0 <= i < |init| && init[i].hostname == x {
        var i :| 0 <= i < |init| && init[i].hostname == x;
        assert os[i].hostname == x;
      }
      if exists i :: 0 <= i < |os| && os[i].hostname == x {
        var i :| 0 <= i < |os| && os[i].hostname == x;
        if i < |init| {
          assert init[i].hostname == x;
        }
      }
    }
  }

  /** Replaying the same run of observations at the same time changes
      nothing more. */
  lemma FoldApIdempotent(prev: Option<AccessPoint>, os: seq<ApObservation>, now: int)
    ensures FoldAp(FoldAp(prev, os, now), os, now) == FoldAp(prev, os, now)
  {
    if os != [] {
      FoldApShape(prev, os, now);
      var once := FoldAp(prev, os, now);
      FoldApShape(once, os, now);
      var twice := FoldAp(once, os, now);
      TouchAllCompose(ClientsOf(prev), AllClientKeys(os), AllClientKeys(os), now);
      assert AllClientKeys(os) + AllClientKeys(os) == AllClientKeys(os);
      assert twice.value.clients == once.value.clients;
      assert twice.value == once.value;
    }
  }

  lemma MapsEqualByGet(a: Memory, b: Memory)
    requires forall k :: Get(a, k) == Get(b, k)
    ensures a == b
  {
    assert a.Keys == b.Keys by {
      forall k ensures k in a <==> k in b {
        assert Get(a, k).Some? == Get(b, k).Some?;
      }
    }
    forall k | k in a ensures a[k] == b[k] {
      assert Get(a, k) == Get(b, k);
    }
  }

  /** Ingesting the same batch twice at the same time gives the same
      memory as ingesting it once. */
  lemma IngestBatchIdempotent(m: Memory, b: seq<ApObservation>, now: int)
    ensures IngestBatch(IngestBatch(m, b, now), b, now) == IngestBatch(m, b, now)
  {
    var once := IngestBatch(m, b, now);
    var twice := IngestBatch(once, b, now);
    forall k ensures Get(twice, k) == Get(once, k) {
      IngestPerKey(m, b, now, k);
      IngestPerKey(once, b, now, k);
      FoldApIdempotent(Get(m, k), ObsFor(b, k), now);
    }
    MapsEqualByGet(twice, once);
  }

  // ---------------------------------------------------------------------
  // Growth and time
  // ---------------------------------------------------------------------

  /** `m1` keeps every key of `m0` and every client of each of them. */
  ghost predicate Extends(m0: Memory, m1: Memory)
  {
    && m0.Keys <= m1.Keys
    && forall k :: k in m0 ==> m0[k].clients.Keys <= m1[k].clients.Keys
  }

  /** `m1` has an access point or a client that `m0` lacks. */
  ghost predicate Grew(m0: Memory, m1: Memory)
  {
    exists k :: k in m1 && (k !in m0 || m1[k].clients.Keys != m0[k].clients.Keys)
  }

  /** Ingest never removes an access point or a client. */
  lemma IngestBatchExtends(m: Memory, b: seq<ApObservation>, now: int)
    ensures Extends(m, IngestBatch(m, b, now))
  {
    IngestBatchKeys(m, b, now);
    forall k | k in m ensures m[k].clients.Keys <= IngestBatch(m, b, now)[k].clients.Keys {
      IngestBatchEffect(m, b, now, k);
    }
  }

  lemma ChronologicalLater(m: Memory, before: int, now: int)
    requires Chronological(m, before) && before <= now
    ensures Chronological(m, now)
  {
  }

  lemma {:induction false} IngestApChronological(m: Memory, o: ApObservation, now: int)
    requires Chronological(m, now)
    ensures Chronological(IngestAp(m, o, now), now)
  {
    var k := Key(o.mac);
    if k != "" {
      var prev := Get(m, k);
      var ap := if prev.Some? then TouchAp(prev.value, o, now) else NewAp(o, now);
      IngestClientsClosed(ap.clients, o.clients, now);
      var r := IngestAp(m, o, now);
      forall j | j in r
        ensures r[j].firstSeen <= r[j].lastSeen <= now
        ensures forall c :: c in r[j].clients ==> r[j].clients[c].firstSeen <= r[j].clients[c].lastSeen <= now
      {
        if j != k {
          assert r[j] == m[j];
        }
      }
    }
  }

  /** If every record was first seen no later than last seen, and last seen
      no later than `before`, then after a batch at `now >= before` the same
      holds up to `now`: ingest keeps the timestamps of every record ordered. */
  lemma {:induction false} IngestBatchChronological(m: Memory, b: seq<ApObservation>, before: int, now: int)
    requires Chronological(m, before) && before <= now
    ensures Chronological(IngestBatch(m, b, now), now)
    decreases |b|
  {
    if b == [] {
      ChronologicalLater(m, before, now);
    } else {
      IngestBatchChronological(m, b[..|b| - 1], before, now);
      IngestApChronological(IngestBatch(m, b[..|b| - 1], now), b[|b| - 1], now);
    }
  }

  // ---------------------------------------------------------------------
  // What sets the dirty flag
  // ---------------------------------------------------------------------

  /** Some reported client is new to the map at the moment it is processed. */
  predicate AddsClient(cs: map<string, Client>, obs: seq<ClientObservation>, now: int)
    decreases |obs|
  {
    && obs != []
    && var init := obs[..|obs| - 1];
       var ck := Key(obs[|obs| - 1].mac);
       AddsClient(cs, init, now) || (ck != "" && ck !in IngestClients(cs, init, now))
  }

  /** The observation creates its access point, or adds a client to it. */
  predicate AddsEntry(m: Memory, o: ApObservation, now: int)
  {
    var k := Key(o.mac);
    k != "" && (k !in m || AddsClient(m[k].clients, o.clients, now))
  }

  /** Some observation of the batch creates an access point or a client. */
  predicate BatchAddsEntry(m: Memory, b: seq<ApObservation>, now: int)
    decreases |b|
  {
    && b != []
    && (BatchAddsEntry(m, b[..|b| - 1], now) || AddsEntry(IngestBatch(m, b[..|b| - 1], now), b[|b| - 1], now))
  }

  /** The client fold and the new-client test, one reported client further. */
  lemma ClientPrefixStep(cs: map<string, Client>, obs: seq<ClientObservation>, j: int, now: int)
    requires 0 <= j < |obs|
    ensures IngestClients(cs, obs[..j + 1], now) == IngestClient(IngestClients(cs, obs[..j], now), obs[j], now)
    ensures AddsClient(cs, obs[..j + 1], now)
              == (AddsClient(cs, obs[..j], now)
                  || (Key(obs[j].mac) != "" && Key(obs[j].mac) !in IngestClients(cs, obs[..j], now)))
  {
    assert obs[..j + 1][..j] == obs[..j];
  }

  lemma {:induction false} AddsClientIffNewKeys(cs: map<string, Client>, obs: seq<ClientObservation>, now: int)
    ensures cs.Keys <= IngestClients(cs, obs, now).Keys
    ensures AddsClient(cs, obs, now) <==> IngestClients(cs, obs, now).Keys != cs.Keys
    decreases |obs|
  {
    if obs != [] {
      var init := obs[..|obs| - 1];
      AddsClientIffNewKeys(cs, init, now);
      var ck := Key(obs[|obs| - 1].mac);
      var before := IngestClients(cs, init, now);
      if ck != "" {
        assert IngestClients(cs, obs, now).Keys == before.Keys + {ck};
      }
    }
  }

  lemma NoGrowth(m: Memory)
    ensures Extends(m, m) && !Grew(m, m)
  {
  }

  /** Replacing one record by one with at least its clients extends the
      memory, and grows it exactly when the key is new or a client is. */
  lemma UpdateOneGrowth(m0: Memory, k: string, ap: AccessPoint)
    requires k in m0 ==> m0[k].clients.Keys <= ap.clients.Keys
    ensures Extends(m0, m0[k := ap])
    ensures Grew(m0, m0[k := ap]) <==> k !in m0 || ap.clients.Keys != m0[k].clients.Keys
  {
    var m1 := m0[k := ap];
    if Grew(m0, m1) {
      var j :| j in m1 && (j !in m0 || m1[j].clients.Keys != m0[j].clients.Keys);
      assert j == k;
    }
    if k !in m0 || ap.clients.Keys != m0[k].clients.Keys {
      assert k in m1 && (k !in m0 || m1[k].clients.Keys != m0[k].clients.Keys);
    }
  }

  /** Growth accumulates: over two extending steps the memory has grown
      exactly when one of the steps grew it. */
  lemma GrewTrans(m0: Memory, m1: Memory, m2: Memory)
    requires Extends(m0, m1) && Extends(m1, m2)
    ensures Extends(m0, m2)
    ensures Grew(m0, m2) <==> Grew(m0, m1) || Grew(m1, m2)
  {
    if Grew(m0, m1) {
      var k :| k in m1 && (k !in m0 || m1[k].clients.Keys != m0[k].clients.Keys);
      assert k in m2 && (k !in m0 || m2[k].clients.Keys != m0[k].clients.Keys);
    }
    if Grew(m1, m2) {
      var k :| k in m2 && (k !in m1 || m2[k].clients.Keys != m1[k].clients.Keys);
      assert k in m2 && (k !in m0 || m2[k].clients.Keys != m0[k].clients.Keys);
    }
    if Grew(m0, m2) {
      var k :| k in m2 && (k !in m0 || m2[k].clients.Keys != m0[k].clients.Keys);
      if k !in m1 {
        assert Grew(m1, m2);
      } else if k !in m0 || m1[k].clients.Keys != m0[k].clients.Keys {
        assert Grew(m0, m1);
      } else {
        assert Grew(m1, m2);
      }
    }
  }

  /** One observation adds an entry exactly when it makes the memory grow. */
  lemma AddsEntryIffGrew(m: Memory, o: ApObservation, now: int)
    ensures Extends(m, IngestAp(m, o, now))
    ensures AddsEntry(m, o, now) <==> Grew(m, IngestAp(m, o, now))
  {
    var k := Key(o.mac);
    if k == "" {
      NoGrowth(m);
    } else {
      var prev := Get(m, k);
      var ap := if prev.Some? then TouchAp(prev.value, o, now) else NewAp(o, now);
      AddsClientIffNewKeys(ap.clients, o.clients, now);
      UpdateOneGrowth(m, k, StepAp(prev, o, now));
    }
  }

  /** A batch adds an entry exactly when the memory it leaves has an access
      point, or an access point has a client, that the old memory lacked. */
  lemma {:induction false} BatchAddsEntryIffGrew(m: Memory, b: seq<ApObservation>, now: int)
    ensures Extends(m, IngestBatch(m, b, now))
    ensures BatchAddsEntry(m, b, now) <==> Grew(m, IngestBatch(m, b, now))
    decreases |b|
  {
    if b == [] {
      NoGrowth(m);
    } else {
      var init := b[..|b| - 1];
      BatchAddsEntryIffGrew(m, init, now);
      var mi := IngestBatch(m, init, now);
      AddsEntryIffGrew(mi, b[|b| - 1], now);
      GrewTrans(m, mi, IngestBatch(m, b, now));
    }
  }

  // ---------------------------------------------------------------------
  // The count of new access points
  // ---------------------------------------------------------------------

  /** One more key adds one new key exactly when it is non-empty and
      neither known nor seen before. */
  lemma AddKeyCount(seen: set<string>, known: set<string>, k: string)
    ensures var added := seen + (if k == "" then {} else {k});
            |added - known| == |seen - known| + (if k != "" && k !in known + seen then 1 else 0)
  {
    var added := seen + (if k == "" then {} else {k});
    if k == "" || k in seen || k in known {
      assert added - known == seen - known;
    } else {
      assert added - known == (seen - known) + {k};
    }
  }

  /** The number of observations of the batch that create an access point,
      counted as the scan loop counts them. */
  function NewApCount(m: Memory, b: seq<ApObservation>, now: int): nat
    decreases |b|
  {
    if b == [] then 0
    else
      var init := b[..|b| - 1];
      var k := Key(b[|b| - 1].mac);
      NewApCount(m, init, now) + (if k != "" && k !in IngestBatch(m, init, now) then 1 else 0)
  }

  /** The count is the number of keys the batch brings that the memory did
      not hold: an access point reported twice is counted once. */
  lemma {:induction false} NewApCountIsNewKeys(m: Memory, b: seq<ApObservation>, now: int)
    ensures NewApCount(m, b, now) == |BatchKeys(b) - m.Keys|
    decreases |b|
  {
    if b != [] {
      var init := b[..|b| - 1];
      NewApCountIsNewKeys(m, init, now);
      IngestBatchKeys(m, init, now);
      BatchKeysStep(b);
      AddKeyCount(BatchKeys(init), m.Keys, Key(b[|b| - 1].mac));
    }
  }

  lemma BatchKeysStep(b: seq<ApObservation>)
    requires b != []
    ensures var k := Key(b[|b| - 1].mac);
            BatchKeys(b) == BatchKeys(b[..|b| - 1]) + (if k == "" then {} else {k})
  {
  }
}
