/** The plugin object (SATpwn.py class `SATpwn`): the fields the handlers
    update in place, and the handlers, each proved against the
    specification functions of the other modules. Time is passed in as
    `now`; files are passed in and out as parsed documents. */
module Plugin {
  import opened Common
  import opened Records
  import opened Whitelist
  import opened Activity
  import opened Decision
  import opened Ingest
  import opened Eviction
  import opened Persistence

  /** The activity glyph of the status line. */
  datatype Indicator = MovingGlyph | StationaryGlyph | HomeGlyph | NoGlyph

  /** What the status line shows: the mode label, the number of access
      points, the number of clients, and the activity glyph. */
  datatype Status = Status(modeDisplay: string, apCount: nat, clientCount: nat, indicator: Indicator)

  /** Reference definition of the client total: the (access point, client)
      pairs among the access points in `keys`. */
  ghost function ClientPairs(m: Memory, keys: set<string>): set<(string, string)>
  {
    set k, c | k in keys && k in m && c in m[k].clients :: (k, c)
  }

  lemma {:induction false} RowSize(k: string, cs: set<string>)
    ensures |set c | c in cs :: (k, c)| == |cs|
    decreases |cs|
  {
    if cs != {} {
      var x :| x in cs;
      RowSize(k, cs - {x});
      assert (set c | c in cs :: (k, c)) == (set c | c in cs - {x} :: (k, c)) + {(k, x)};
    } else {
      assert (set c | c in cs :: (k, c)) == {};
    }
  }

  /** Adding one access point adds exactly its clients to the pairs. */
  lemma ClientPairsAdd(m: Memory, keys: set<string>, k: string)
    requires k in m && k !in keys
    ensures |ClientPairs(m, keys + {k})| == |ClientPairs(m, keys)| + |m[k].clients|
  {
    var row := set c | c in m[k].clients.Keys :: (k, c);
    assert ClientPairs(m, keys + {k}) == ClientPairs(m, keys) + row;
    assert ClientPairs(m, keys) !! row;
    RowSize(k, m[k].clients.Keys);
  }

  class SATpwn {
    var ready: bool
    var memory: Memory
    var mode: string
    var dirty: bool
    var history: seq<Sample>
    var whitelist: set<string>
    var autoSubmode: Option<string>
    var stationaryStart: Option<int>
    var lastActivityCheck: int

    /** The mode is always one of the five, and the sub-mode auto mode has
        chosen, if any, is one of the four concrete modes. */
    ghost predicate Valid()
      reads this
    {
      && mode in MODES
      && (autoSubmode.Some? ==> autoSubmode.value in MODES && autoSubmode.value != AUTO)
    }

    constructor (config: ConfigFile)
      ensures Valid()
      ensures !ready && memory == map[] && mode == DEFAULT_MODE && dirty && history == []
      ensures autoSubmode == None && stationaryStart == None && lastActivityCheck == 0
      ensures whitelist == LoadWhitelist(config)
    {
      ready := false;
      memory := map[];
      mode := MODES[0];
      dirty := true;
      lastActivityCheck := 0;
      history := [];
      whitelist := {};
      autoSubmode := None;
      stationaryStart := None;
      new;
      LoadHomeWhitelist(config);
    }

    /** `_load_home_whitelist`: the whitelist becomes the normalised entries
        found in the configuration, or empty when there are none. */
    method LoadHomeWhitelist(config: ConfigFile)
      modifies this`whitelist
      ensures whitelist == LoadWhitelist(config)
      ensures forall x :: x in whitelist ==> x != "" && Trim(x) == x
    {
      var found := if config.ConfigParsed? then FindWhitelist(config.conf) else None;
      if found.Some? {
        var homeList := Normalise(found.value);
        if homeList != {} {
          whitelist := homeList;
        } else {
          whitelist := {};
        }
      } else {
        whitelist := {};
      }
    }

    /** `on_ready`. */
    method OnReady()
      modifies this`ready
      ensures ready
    {
      ready := true;
    }

    /** `_update_activity_history`: record the batch's count at `now`, then
        drop every sample at or before `now - 300`. */
    method UpdateActivityHistory(newApCount: nat, now: int)
      modifies this`history
      ensures history == Prune(old(history) + [Sample(now, newApCount)], now)
      ensures history == Prune(old(history), now) + [Sample(now, newApCount)]
      ensures forall i :: 0 <= i < |history| ==> history[i].t > now - ACTIVITY_WINDOW_SECONDS
    {
      history := history + [Sample(now, newApCount)];
      history := Prune(history, now);
      RecordThenPrune(old(history), now, newApCount);
      assert forall i :: 0 <= i < |history| ==> history[i] in history;
    }

    /** `_is_moving`: reads the window, changes nothing. */
    function IsMoving(now: int): (r: bool)
      reads this
      ensures r <==> RecentActivity(history, now) >= ACTIVITY_THRESHOLD
    {
      Moving(history, now)
    }

    /** `_is_stationary`: one check of the stationary timer. */
    method IsStationary(now: int) returns (stationary: bool)
      modifies this`stationaryStart
      ensures StationaryResult(stationaryStart, stationary)
                == StationaryStep(old(stationaryStart), RecentActivity(history, now), now)
    {
      var recentActivity := RecentActivity(history, now);
      var lowActivity := recentActivity < ACTIVITY_THRESHOLD;
      if lowActivity {
        if stationaryStart.None? {
          stationaryStart := Some(now);
        }
        var elapsed := now - stationaryStart.value;
        stationary := elapsed >= STATIONARY_SECONDS;
      } else {
        if stationaryStart.Some? {
          stationaryStart := None;
        }
        stationary := false;
      }
    }

    /** `_home_ssid_visible`: a scan of the memory that stops at the first
        access point whose name or address is on the whitelist. */
    method HomeSsidVisible() returns (visible: bool)
      ensures visible == HomeVisible(memory, whitelist)
    {
      if whitelist == {} {
        return false;
      }
      var todo := memory.Keys;
      while todo != {}
        invariant todo <= memory.Keys
        invariant forall k :: k in memory && k !in todo ==> !(memory[k].ssid in whitelist || k in whitelist)
        decreases todo
      {
        var apMac :| apMac in todo;
        var ssid := memory[apMac].ssid;
        if ssid in whitelist || apMac in whitelist {
          return true;
        }
        todo := todo - {apMac};
      }
      return false;
    }

    /** `_auto_mode_logic`: home first, then the stationary check (which
        moves the timer), then motion, then the memory size. */
    method AutoModeLogic(now: int) returns (submode: string)
      modifies this`stationaryStart
      ensures var st := StationaryStep(old(stationaryStart), RecentActivity(history, now), now);
              && stationaryStart == st.start
              && submode == AutoSubmode(HomeVisible(memory, whitelist), st.stationary, Moving(history, now), |memory|)
      ensures submode in MODES && submode != AUTO
    {
      var homeSsidVisible := HomeSsidVisible();
      var isStationary := IsStationary(now);
      var isMoving := IsMoving(now);
      if homeSsidVisible || isStationary {
        return RECON;
      }
      if isMoving {
        return DRIVE_BY;
      }
      submode := if |memory| < SMALL_MEMORY then LOOSE else STRICT;
    }

    /** `_cleanup_memory`: mark dirty, drop the access points past their
        period, then drop the clients past theirs from the survivors. */
    method CleanupMemory(now: int)
      modifies this`memory, this`dirty
      ensures dirty
      ensures memory == Evict(old(memory), now, ApTtl(mode), ClientTtl(mode))
    {
      dirty := true;
      var apExpiry := if mode == DRIVE_BY then DRIVE_BY_AP_EXPIRY_SECONDS else AP_EXPIRY_SECONDS;
      var clientExpiry := if mode == DRIVE_BY then DRIVE_BY_CLIENT_EXPIRY_SECONDS else CLIENT_EXPIRY_SECONDS;

      ghost var m0 := memory;
      DropExpiredAps(now, apExpiry);
      ghost var m1 := memory;

      var keys := memory.Keys;
      while keys != {}
        modifies this`memory
        invariant keys <= m1.Keys
        invariant memory.Keys == m1.Keys
        invariant forall k :: k in keys ==> memory[k] == m1[k]
        invariant forall k :: k in m1 && k !in keys ==>
                    memory[k] == m1[k].(clients := KeepClients(m1[k].clients, now, clientExpiry))
        decreases keys
      {
        var apMac :| apMac in keys;
        keys := keys - {apMac};
        DropExpiredClients(apMac, now, clientExpiry);
      }
      EvictAfterPhases(m0, m1, memory, now, apExpiry, clientExpiry);
    }

    /** The first phase of `_cleanup_memory`: the expired access points are
        collected, then deleted one by one. */
    method DropExpiredAps(now: int, apExpiry: int)
      modifies this`memory
      ensures memory == KeepAps(old(memory), now, apExpiry)
    {
      var expiredAps := set apMac | apMac in memory && Expired(memory[apMac].lastSeen, now, apExpiry);
      var todo := expiredAps;
      while todo != {}
        invariant todo <= expiredAps
        invariant memory.Keys == old(memory).Keys - (expiredAps - todo)
        invariant forall k :: k in memory ==> memory[k] == old(memory)[k]
        decreases todo
      {
        var apMac :| apMac in todo;
        memory := memory - {apMac};
        todo := todo - {apMac};
      }
      assert memory.Keys == KeepAps(old(memory), now, apExpiry).Keys;
    }

    /** The inner loop of the second phase of `_cleanup_memory`: the
        expired clients of one access point are deleted one by one. */
    method DropExpiredClients(apMac: string, now: int, clientExpiry: int)
      requires apMac in memory
      modifies this`memory
      ensures memory == old(memory)[apMac := old(memory)[apMac].(clients :=
                KeepClients(old(memory)[apMac].clients, now, clientExpiry))]
    {
      var ap := memory[apMac];
      var expiredClients := set c | c in ap.clients && Expired(ap.clients[c].lastSeen, now, clientExpiry);
      ghost var before := memory;
      var clients := ap.clients;
      var ctodo := expiredClients;
      while ctodo != {}
        modifies this`memory
        invariant ctodo <= expiredClients
        invariant clients.Keys == ap.clients.Keys - (expiredClients - ctodo)
        invariant forall c :: c in clients ==> clients[c] == ap.clients[c]
        invariant memory == before[apMac := ap.(clients := clients)]
        decreases ctodo
      {
        var clientMac :| clientMac in ctodo;
        clients := clients - {clientMac};
        memory := memory[apMac := ap.(clients := clients)];
        ctodo := ctodo - {clientMac};
      }
      assert clients == KeepClients(ap.clients, now, clientExpiry) by {
        assert clients.Keys == KeepClients(ap.clients, now, clientExpiry).Keys;
      }
    }

    /** One step of the scan loop: the access point `o` and its clients.
        Reports whether `o` introduced a new access point. */
    method IngestObservation(o: ApObservation, now: int) returns (isNewAp: bool)
      modifies this`memory, this`dirty
      ensures memory == IngestAp(old(memory), o, now)
      ensures isNewAp == (Key(o.mac) != "" && Key(o.mac) !in old(memory))
      ensures dirty == (old(dirty) || AddsEntry(old(memory), o, now))
    {
      isNewAp := false;
      var apMac := Key(o.mac);
      if apMac == "" {
        return;
      }
      ghost var m0 := memory;
      ghost var d0 := dirty;
      isNewAp := apMac !in memory;
      var ap;
      if apMac !in memory {
        ap := NewAp(o, now);
        memory := memory[apMac := ap];
        dirty := true;
      } else {
        ap := TouchAp(memory[apMac], o, now);
        memory := memory[apMac := ap];
      }
      var clients := IngestClientList(ap.clients, o.clients, now);
      memory := memory[apMac := ap.(clients := clients)];
    }

    /** The inner loop of the scan: each reported client of one access point
        is added, or has its last-seen time moved to `now`; a new one marks
        the memory dirty. */
    method IngestClientList(cs: map<string, Client>, obs: seq<ClientObservation>, now: int)
      returns (clients: map<string, Client>)
      modifies this`dirty
      ensures clients == IngestClients(cs, obs, now)
      ensures dirty == (old(dirty) || AddsClient(cs, obs, now))
    {
      clients := cs;
      var j := 0;
      while j < |obs|
        invariant 0 <= j <= |obs|
        invariant clients == IngestClients(cs, obs[..j], now)
        invariant dirty == (old(dirty) || AddsClient(cs, obs[..j], now))
      {
        ClientPrefixStep(cs, obs, j, now);
        var clientMac := Key(obs[j].mac);
        if clientMac != "" {
          if clientMac !in clients {
            clients := clients[clientMac := Client(now, now, 0)];
            dirty := true;
          } else {
            clients := clients[clientMac := clients[clientMac].(lastSeen := now)];
          }
        }
        j := j + 1;
      }
      assert obs[..j] == obs;
    }

    /** The scan loop of `on_unfiltered_ap_list`: the batch in order, and
        the number of access points it added to the memory. */
    method IngestScan(batch: seq<ApObservation>, now: int) returns (newApCount: nat)
      modifies this`memory, this`dirty
      ensures memory == IngestBatch(old(memory), batch, now)
      ensures newApCount == NewApCount(old(memory), batch, now)
      ensures dirty == (old(dirty) || BatchAddsEntry(old(memory), batch, now))
    {
      newApCount := 0;
      ghost var m0 := memory;
      ghost var d0 := dirty;
      var i := 0;
      while i < |batch|
        invariant 0 <= i <= |batch|
        invariant memory == IngestBatch(m0, batch[..i], now)
        invariant newApCount == NewApCount(m0, batch[..i], now)
        invariant dirty == (d0 || BatchAddsEntry(m0, batch[..i], now))
      {
        ghost var next := batch[..i + 1];
        assert next[..i] == batch[..i] && next[i] == batch[i];
        var isNewAp := IngestObservation(batch[i], now);
        if isNewAp {
          newApCount := newApCount + 1;
        }
        i := i + 1;
      }
      assert batch[..i] == batch;
    }

    /** `on_unfiltered_ap_list`: ingest the batch, record how many new
        access points it brought, and in auto mode re-select the sub-mode,
        switching only when it differs. Nothing happens before `on_ready`. */
    method OnUnfilteredApList(batch: seq<ApObservation>, now: int)
      requires Valid()
      modifies this`memory, this`dirty, this`history, this`lastActivityCheck, this`stationaryStart, this`autoSubmode
      ensures Valid()
      ensures !old(ready) ==> unchanged(this)
      ensures old(ready) ==>
        && memory == IngestBatch(old(memory), batch, now)
        && history == Prune(old(history) + [Sample(now, |BatchKeys(batch) - old(memory).Keys|)], now)
        && dirty == (old(dirty) || Grew(old(memory), memory))
        && lastActivityCheck == (if now - old(lastActivityCheck) > 30 then now else old(lastActivityCheck))
      ensures old(ready) && mode == AUTO ==>
        var st := StationaryStep(old(stationaryStart), RecentActivity(history, now), now);
        && stationaryStart == st.start
        && autoSubmode == Some(AutoSubmode(HomeVisible(memory, whitelist), st.stationary, Moving(history, now), |memory|))
      ensures old(ready) && mode != AUTO ==>
        stationaryStart == old(stationaryStart) && autoSubmode == old(autoSubmode)
    {
      if !ready {
        return;
      }
      if now - lastActivityCheck > 30 {
        lastActivityCheck := now;
      }
      var newApCount := IngestScan(batch, now);
      BatchAddsEntryIffGrew(old(memory), batch, now);
      NewApCountIsNewKeys(old(memory), batch, now);
      UpdateActivityHistory(newApCount, now);
      RefreshAutoSubmode(now);
    }

    /** The end of `on_unfiltered_ap_list`: in auto mode the sub-mode is
        chosen afresh and switched to only when it differs. */
    method RefreshAutoSubmode(now: int)
      requires Valid()
      modifies this`stationaryStart, this`autoSubmode
      ensures Valid()
      ensures mode == AUTO ==>
        var st := StationaryStep(old(stationaryStart), RecentActivity(history, now), now);
        && stationaryStart == st.start
        && autoSubmode == Some(AutoSubmode(HomeVisible(memory, whitelist), st.stationary, Moving(history, now), |memory|))
      ensures mode != AUTO ==> stationaryStart == old(stationaryStart) && autoSubmode == old(autoSubmode)
    {
      if mode == AUTO {
        var newSubmode := AutoModeLogic(now);
        if Some(newSubmode) != autoSubmode {
          autoSubmode := Some(newSubmode);
        }
      }
    }


    /** The client total of the status line: one per (access point, client) pair. */
    method TotalClients() returns (total: nat)
      ensures total == |ClientPairs(memory, memory.Keys)|
    {
      total := 0;
      var todo := memory.Keys;
      while todo != {}
        invariant todo <= memory.Keys
        invariant total == |ClientPairs(memory, memory.Keys - todo)|
        decreases todo
      {
        var apMac :| apMac in todo;
        ClientPairsAdd(memory, memory.Keys - todo, apMac);
        assert (memory.Keys - todo) + {apMac} == memory.Keys - (todo - {apMac});
        total := total + |memory[apMac].clients|;
        todo := todo - {apMac};
      }
      assert memory.Keys - todo == memory.Keys;
    }

    /** `on_ui_update`: the status line. The glyph tests motion first, then
        the stationary timer (only consulted, and so only moved, when not
        moving), then home. Nothing is shown before `on_ready`. */
    method UiUpdate(now: int) returns (status: Option<Status>)
      modifies this`stationaryStart
      ensures !old(ready) ==> status.None? && stationaryStart == old(stationaryStart)
      ensures old(ready) ==>
        var moving := Moving(history, now);
        var st := StationaryStep(old(stationaryStart), RecentActivity(history, now), now);
        && stationaryStart == (if moving then old(stationaryStart) else st.start)
        && status == Some(Status(
             ModeDisplay(mode, autoSubmode),
             |memory|,
             |ClientPairs(memory, memory.Keys)|,
             if moving then MovingGlyph
             else if st.stationary then StationaryGlyph
             else if HomeVisible(memory, whitelist) then HomeGlyph
             else NoGlyph))
    {
      if !ready {
        return None;
      }
      var modeDisplay := mode;
      if mode == AUTO && autoSubmode.Some? && autoSubmode.value != "" {
        modeDisplay := "auto(" + autoSubmode.value + ")";
      }
      var apCount := |memory|;
      var totalClients := TotalClients();
      var indicator := NoGlyph;
      if IsMoving(now) {
        indicator := MovingGlyph;
      } else {
        var stationary := IsStationary(now);
        if stationary {
          indicator := StationaryGlyph;
        } else {
          var home := HomeSsidVisible();
          if home {
            indicator := HomeGlyph;
          }
        }
      }
      status := Some(Status(modeDisplay, apCount, totalClients, indicator));
    }

    /** `_save_memory`: the document written, metadata and memory. A failed
        write is only logged, so it leaves no trace in the state. */
    method SaveMemory(now: int) returns (doc: Document)
      requires Valid()
      ensures doc == Encode(memory, mode, stationaryStart, now)
      ensures forall prior :: Decode(doc, prior) == Restored(memory, mode, stationaryStart)
    {
      doc := Encode(memory, mode, stationaryStart, now);
    }

    /** `_load_memory`. */
    method LoadMemory(doc: Document)
      requires Valid()
      modifies this`memory, this`mode, this`stationaryStart
      ensures Valid()
      ensures Restored(memory, mode, stationaryStart)
                == Decode(doc, Restored(old(memory), old(mode), old(stationaryStart)))
    {
      match doc {
        case NoFile =>
        case Unreadable =>
          memory := map[];
          mode := MODES[0];
        case Legacy(aps) =>
          memory := aps;
          mode := MODES[0];
        case Tagged(meta, apData) =>
          memory := if apData.Some? then apData.value else map[];
          if meta.MetaNotTable? {
            memory := map[];
            mode := MODES[0];
            return;
          }
          var savedMode := meta.fields.currentMode;
          if savedMode.ModeText? && savedMode.text in MODES {
            mode := savedMode.text;
          } else {
            mode := MODES[0];
          }
          stationaryStart := meta.fields.stationaryStart;
          if meta.fields.lastSaved.StampNotNumber? {
            memory := map[];
            mode := MODES[0];
          }
      }
    }

    /** `on_epoch`: every tenth epoch sweep the memory; every fifth epoch
        save it if dirty and mark it clean (whether or not the write
        succeeded). Nothing happens before `on_ready`. */
    method OnEpoch(epoch: int, now: int) returns (written: Option<Document>)
      requires Valid()
      modifies this`memory, this`dirty
      ensures Valid()
      ensures !old(ready) ==> written.None? && memory == old(memory) && dirty == old(dirty)
      ensures old(ready) ==>
        && memory == (if epoch % 10 == 0 then Evict(old(memory), now, ApTtl(mode), ClientTtl(mode)) else old(memory))
        && dirty == (old(dirty) && epoch % 5 != 0)
        && written == (if epoch % 5 == 0 && (old(dirty) || epoch % 10 == 0)
                       then Some(Encode(memory, mode, stationaryStart, now)) else None)
    {
      written := None;
      if !ready {
        return;
      }
      if epoch % 10 == 0 {
        CleanupMemory(now);
      }
      if dirty && epoch % 5 == 0 {
        var doc := SaveMemory(now);
        written := Some(doc);
        dirty := false;
      }
    }

    /** `on_unload`: a final save if dirty; the flag is left as it was. */
    method OnUnload(now: int) returns (written: Option<Document>)
      requires Valid()
      ensures written == (if dirty then Some(Encode(memory, mode, stationaryStart, now)) else None)
    {
      written := None;
      if dirty {
        var doc := SaveMemory(now);
        written := Some(doc);
      }
    }
  }
}
