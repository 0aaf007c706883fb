# SATpwn — a verified model of the plugin core

SATpwn is a pwnagotchi plugin. It does not use GPS. Instead it watches how
many new Wi-Fi access points each scan brings and infers from that whether
the device is moving, stationary or at home. In `auto` mode it uses that
inference to pick one of four attack sub-modes (`strict`, `loose`,
`drive-by`, `recon`).

The plugin keeps a memory of access points and their clients, keyed by
lower-cased hardware address. It expires stale entries on a mode-dependent
schedule and writes the memory, with the mode and the stationary timer, to
a JSON file.

This project models the core of `SATpwn.py` in Dafny:

- `Records`: the memory records, the five modes and the configuration constants.
- `Common`: an optional value, Python's whitespace class and ASCII lower-casing.
- `Whitelist`: how the home whitelist is found in the configuration and normalised.
- `Activity`: the sliding activity window and the moving/stationary classifier
  with its hysteresis timer.
- `Decision`: the home-presence test, the auto sub-mode priority and the mode label.
- `Ingest`: how one scan batch is folded into the memory, and what makes the
  memory "dirty".
- `Eviction`: time-to-live eviction.
- `Persistence`: the saved document and how loading restores state from it.
- `Plugin`: the class `SATpwn`, with the plugin's fields and one method per
  handler or helper. Each method is proved against the specification
  functions of the other modules.

Time is a parameter `now: int` of every handler. The configuration file and
the memory file are datatypes that stand for what the TOML and JSON parsers
produced. Ingest, eviction and loading are specified as pure functions.
The lemmas about those functions carry what the plugin promises: closed
forms, idempotence, round trips, priority and hysteresis.

The imperative methods of the class follow the source's loops:

- the batch loop and its client loop;
- the two sweep phases;
- the scan for a home network;
- the client count.

## Model

| member | source | states |
|---|---|---|
| Common.LowerShape | SATpwn.py:358 | lower-casing an address keeps its length, leaves no upper-case letter, and is the identity on a string without one |
| Common.LowerIdempotent | SATpwn.py:358 | an address key that was lower-cased once is its own key |
| Common.LowerEmpty | SATpwn.py:358-360 | a reported address has an empty key (and is skipped) exactly when it is empty |
| Whitelist.Split | SATpwn.py:128 | `str.split(',')` always yields at least one piece |
| Whitelist.TrimLeft | SATpwn.py:128 | the leading-whitespace half of `str.strip()`; its shape is stated by `TrimLeftShape` |
| Whitelist.TrimRight | SATpwn.py:128 | the trailing-whitespace half of `str.strip()`; its shape is stated by `TrimRightShape` |
| Whitelist.Trim | SATpwn.py:128 | `str.strip()`; `TrimIsCore`, `TrimSurrounded` and `TrimIdempotent` state what it removes |
| Whitelist.TrimmedNonEmpty | SATpwn.py:128-131 | the set of non-empty stripped pieces, as the two comprehensions and `set(...)` compute it; `TrimmedNonEmptyMembers` characterises it |
| Whitelist.Normalise | SATpwn.py:124-145 | a string is split on commas, a list is taken item by item, any other type gives no entries |
| Whitelist.FindWhitelist | SATpwn.py:101-121 | the lookup chain: the flat key, else a `[main]` table's `home_whitelist` or `whitelist`, else the top-level key |
| Whitelist.SplitPiecesCommaFree | SATpwn.py:128 | no piece of a comma split contains a comma |
| Whitelist.JoinSplit | SATpwn.py:128 | the pieces, re-joined with commas, give the original string back |
| Whitelist.SplitJoin | SATpwn.py:128 | splitting the comma-join of comma-free pieces gives exactly those pieces |
| Whitelist.TrimLeftShape | SATpwn.py:128 | the leading part removed by `strip` is all whitespace, and the rest is a suffix that does not start with whitespace |
| Whitelist.TrimRightShape | SATpwn.py:128 | the trailing part removed by `strip` is all whitespace, and the rest is a prefix that does not end with whitespace |
| Whitelist.TrimIsCore | SATpwn.py:128 | `strip` returns a contiguous slice surrounded only by whitespace, with no whitespace at either end |
| Whitelist.TrimSurrounded | SATpwn.py:128 | `strip` removes exactly the whitespace around a core that neither starts nor ends with whitespace |
| Whitelist.TrimIdempotent | SATpwn.py:128-131 | stripping twice is stripping once |
| Whitelist.TrimmedNonEmptyMembers | SATpwn.py:128-131 | an entry is kept exactly when it is the non-empty stripped form of some piece |
| Whitelist.NormalisedEntriesTrimmed | SATpwn.py:126-145 | every whitelist entry is non-empty and already stripped |
| Whitelist.TextEntries | SATpwn.py:126-128 | a string setting yields exactly the non-empty stripped comma pieces, and no entry contains a comma |
| Whitelist.LoadWhitelist | SATpwn.py:73-153 | a missing or unparseable configuration gives the empty whitelist; every entry is non-empty and stripped |
| Whitelist.MainTableShadowsTopLevel | SATpwn.py:109-121 | a `[main]` table without either key hides a top-level `home_whitelist`, so the whitelist is empty |
| Whitelist.FlatKeyWins | SATpwn.py:104-106 | the flat key `main.home_whitelist` takes precedence over every other place |
| Activity.Prune | SATpwn.py:160-162 | pruning keeps exactly the samples newer than `now - 300`, and never lengthens the history |
| Activity.Retained | SATpwn.py:161-162 | a sample is kept when its time is strictly after `now - 300` |
| Activity.InWindow | SATpwn.py:169-170 | a sample counts as recent when `now - t <= 300` |
| Activity.RecentActivity | SATpwn.py:169-170 | the sum of the counts of the recent samples |
| Activity.Moving | SATpwn.py:196-199 | moving when recent activity reaches 5 |
| Activity.PruneAppend | SATpwn.py:162 | pruning distributes over concatenation, so order is kept |
| Activity.PruneTwice | SATpwn.py:162 | pruning at a later time after pruning at an earlier one is pruning at the later time |
| Activity.RecordThenPrune | SATpwn.py:155-162 | the sample just recorded always survives its own pruning |
| Activity.RecentActivityAppend | SATpwn.py:196-197 | recent activity is additive over concatenation |
| Activity.RecentActivityBounded | SATpwn.py:169-170 | recent activity is at most the total, and equals it when every sample is in the window |
| Activity.RecentActivityAntitone | SATpwn.py:196-197 | with no new samples, recent activity can only fall as time passes |
| Activity.PruneKeepsLaterActivity | SATpwn.py:160-170 | pruning never adds activity, and at any strictly later time it removes none |
| Activity.StationaryStep | SATpwn.py:164-189 | high activity stops the timer and answers false; low activity starts a stopped timer (answering false) or keeps a running one; "stationary" means the timer has run at least 3600 s |
| Activity.MovingExcludesStationary | SATpwn.py:173-199 | moving and stationary never hold together for the same history and time |
| Activity.QuietKeepsTimer | SATpwn.py:175-177 | quiet checks never move a running timer |
| Activity.StaysStationary | SATpwn.py:175-183 | once stationary, a later quiet check is stationary too, provided every check in between was quiet |
| Activity.TimerNotBefore | SATpwn.py:175-188 | checks made at time `r` or later never start the timer before `r` |
| Activity.BusyResetsTimer | SATpwn.py:184-189 | a busy check reports not stationary, and no later check is stationary before 3600 s have passed since it |
| Activity.QuietSinceFirstCheck | SATpwn.py:175-183 | from a stopped timer, after only quiet checks, a check is stationary exactly when 3600 s have passed since the first of them |
| Activity.ZeroSampleKeepsStationary | SATpwn.py:155-189 | recording a batch with no new access points after a stationary verdict keeps the verdict |
| Activity.BusySampleResets | SATpwn.py:155-199 | recording a batch with at least 5 new access points makes the device moving and stops the timer |
| Decision.EmptyMemoryNotHome | SATpwn.py:203-222 | an empty memory never reveals home |
| Decision.HomeVisible | SATpwn.py:208-218 | home is visible when the whitelist is non-empty and some access point's name or address is on it |
| Decision.AutoSubmode | SATpwn.py:224-239 | the chosen sub-mode is one of the four non-auto modes |
| Decision.AutoSubmodePriority | SATpwn.py:232-239 | each sub-mode is chosen exactly under its condition, in the order home or stationary, then moving, then memory size |
| Decision.ModeDisplay | SATpwn.py:435-437 | the status label: `auto(<sub>)` in auto mode with a non-empty sub-mode, the mode itself otherwise; `ModeDisplayDistinguishes` states that the label identifies the mode and sub-mode |
| Decision.ModeDisplayDistinguishes | SATpwn.py:435-437 | two valid states show the same label only when they have the same mode and, in auto mode, the same sub-mode |
| Ingest.ClientKeys | SATpwn.py:400-402 | the empty client key is never recorded |
| Ingest.Key | SATpwn.py:358 | the memory key of a reported address is the address lower-cased |
| Ingest.TouchClient | SATpwn.py:404-413 | a known client gets `last_seen := now`; a new one is created with both times `now` and no packets |
| Ingest.IngestClient | SATpwn.py:400-413 | a client with an empty key is skipped, any other is touched |
| Ingest.IngestClients | SATpwn.py:398-413 | the reported clients processed in order; `IngestClientsClosed` gives its closed form |
| Ingest.NewAp | SATpwn.py:374-388 | a new record: reported name, signal, channel and encryption, both times `now`, no clients, reserved fields empty or zero |
| Ingest.TouchAp | SATpwn.py:389-395 | a known record gets `last_seen := now` and the new signal, and the name only when the reported one is non-empty |
| Ingest.StepAp | SATpwn.py:373-413 | one observation applied to its record: created or touched, then its clients |
| Ingest.IngestAp | SATpwn.py:358-413 | an observation with an empty key is skipped; any other replaces its key's record by the stepped one |
| Ingest.IngestBatch | SATpwn.py:357-413 | the observations processed in order; `IngestPerKey`, `IngestBatchEffect` and `FoldApShape` give its closed form |
| Ingest.NewApCount | SATpwn.py:367-370 | the loop's counter: one for each observation whose key is non-empty and not yet in the memory when it is processed |
| Ingest.TouchAll | SATpwn.py:404-413 | touching a set of clients adds exactly those keys |
| Ingest.TouchAllCompose | SATpwn.py:399-413 | touching two sets of clients one after the other is touching their union |
| Ingest.IngestClientsClosed | SATpwn.py:398-413 | the reported clients, in order, touch exactly their non-empty keys: a new one is created, an old one gets `last_seen := now` |
| Ingest.BatchKeys | SATpwn.py:358-360 | the empty address key is never recorded |
| Ingest.FoldApShape | SATpwn.py:373-413 | closed form of a record after its observations: last sight, last signal, first sight, channel and encryption kept or taken from the first sighting, last non-empty name, every client touched |
| Ingest.IngestPerKey | SATpwn.py:357-413 | the record of each key depends only on the observations of that key, in order |
| Ingest.ObsForNonEmpty | SATpwn.py:357-360 | a key has observations exactly when the batch reports it |
| Ingest.IngestBatchKeys | SATpwn.py:357-388 | a batch adds exactly its non-empty keys and removes none |
| Ingest.BatchKeysLower | SATpwn.py:358 | every key a batch creates is non-empty, lower-case and comes from a reported address |
| Ingest.IngestBatchEffect | SATpwn.py:357-413 | per key: present afterwards exactly when present before or reported; unreported records unchanged; reported ones exactly as `FoldApShape` gives: last sight and signal, kept or first-sighting fields, last non-empty name, every reported client touched and no other added, reserved fields kept |
| Ingest.NamesAreHostnames | SATpwn.py:394-395 | a name can be left in a record exactly when it is a non-empty reported hostname |
| Ingest.FoldApIdempotent | SATpwn.py:373-413 | replaying a key's observations at the same time changes nothing more |
| Ingest.IngestBatchIdempotent | SATpwn.py:357-413 | ingesting the same batch twice at the same time is ingesting it once |
| Ingest.IngestBatchExtends | SATpwn.py:357-413 | ingest never removes an access point or a client |
| Ingest.IngestApChronological | SATpwn.py:373-413 | one observation keeps first ≤ last ≤ now for every record and client |
| Ingest.IngestBatchChronological | SATpwn.py:357-413 | a batch at `now` keeps first ≤ last ≤ now for every record and client |
| Ingest.AddsClient | SATpwn.py:404-410 | holds when some reported client, processed in order, has a non-empty key that the client map lacks at that moment (the dirty mark on a new client) |
| Ingest.AddsEntry | SATpwn.py:373-410 | holds when the observation's key is non-empty and either is new to the memory (the dirty mark on a new access point) or `AddsClient` holds for its clients on the record |
| Ingest.BatchAddsEntry | SATpwn.py:356-413 | holds when some observation of the batch, applied to the memory the earlier ones left, satisfies `AddsEntry` |
| Ingest.AddsClientIffNewKeys | SATpwn.py:404-410 | the client loop marks dirty exactly when it adds a client key |
| Ingest.AddsEntryIffGrew | SATpwn.py:374-413 | one observation marks dirty exactly when it adds an access point or a client |
| Ingest.BatchAddsEntryIffGrew | SATpwn.py:357-413 | a batch marks dirty exactly when the memory it leaves has an access point or a client that the memory before lacked |
| Ingest.NewApCountIsNewKeys | SATpwn.py:367-370 | the new-AP count equals the number of distinct keys the batch brings that the memory lacked |
| Eviction.ApTtl | SATpwn.py:308 | the access-point period of a mode: 1800 s for `drive-by`, 48 h for every other mode; `DriveByShortensRetention` and `EvictExact` state its effect on the sweep |
| Eviction.ClientTtl | SATpwn.py:309 | the client period of a mode: 900 s for `drive-by`, 24 h for every other mode; `EvictExact` states its effect on the sweep |
| Eviction.Expired | SATpwn.py:311-312 | a record has expired when more than its period has passed since it was last seen |
| Eviction.KeepAps | SATpwn.py:311-315 | the access points that have not expired |
| Eviction.KeepClients | SATpwn.py:322-326 | the clients that have not expired |
| Eviction.Evict | SATpwn.py:304-326 | expired access points removed, then expired clients removed from the survivors; `EvictExact` states the result |
| Eviction.EvictExact | SATpwn.py:304-326 | an access point survives exactly when it is within its period, with every field but its clients unchanged; a client survives exactly when it and its access point are within their periods |
| Eviction.EvictIdempotent | SATpwn.py:304-326 | a second sweep at the same time removes nothing more |
| Eviction.DriveByShortensRetention | SATpwn.py:308-315 | a record last seen 1900 s ago is evicted in `drive-by` mode and kept in every other mode, `auto` included |
| Eviction.EvictAfterPhases | SATpwn.py:311-326 | the two sweep phases together are the eviction |
| Persistence.Encode | SATpwn.py:241-253 | the saved document: with a valid mode, loading it back over any state restores exactly the memory, the mode and the timer it was written from |
| Persistence.RestoreMode | SATpwn.py:275-281 | a saved mode is restored exactly when it is one of the five, and the default is used otherwise |
| Persistence.DecodeFails | SATpwn.py:263-297 | the loads that end in the `except` branch: an unreadable file, metadata that is not a table, a `last_saved` that is not a number |
| Persistence.Decode | SATpwn.py:261-302 | no file changes nothing; a legacy file is the memory itself, with the default mode; every load failure (unreadable file, metadata not a table, `last_saved` not a number) gives empty memory and the default mode, keeping the prior timer unless the failure came after the saved timer was restored |
| Persistence.InvalidModeRejected | SATpwn.py:275-284 | an unknown saved mode falls back to the default while the memory and the timer are still restored |
| Persistence.DecodeKeepsModeValid | SATpwn.py:261-302 | whatever the file, the mode stays one of the five |
| Plugin.ClientPairsAdd | SATpwn.py:440 | the client total grows by exactly one access point's clients per access point |
| Plugin.SATpwn.constructor | SATpwn.py:50-71 | not ready, empty memory, default mode, dirty, empty history, no sub-mode or timer, whitelist loaded |
| Plugin.SATpwn.LoadHomeWhitelist | SATpwn.py:73-153 | the whitelist is the one the configuration yields, every entry non-empty and stripped |
| Plugin.SATpwn.OnReady | SATpwn.py:337-341 | the plugin becomes ready |
| Plugin.SATpwn.UpdateActivityHistory | SATpwn.py:155-162 | the new history is the pruned old one plus the new sample, and every sample is inside the window |
| Plugin.SATpwn.IsMoving | SATpwn.py:191-201 | moving exactly when recent activity reaches 5 |
| Plugin.SATpwn.IsStationary | SATpwn.py:164-189 | the verdict and the new timer are those of one stationary check on the current history |
| Plugin.SATpwn.HomeSsidVisible | SATpwn.py:203-222 | true exactly when the whitelist is non-empty and some access point's name or address is on it |
| Plugin.SATpwn.AutoModeLogic | SATpwn.py:224-239 | the sub-mode is the priority choice on home, the stationary check (whose timer update is kept) and motion |
| Plugin.SATpwn.CleanupMemory | SATpwn.py:304-330 | the memory becomes the eviction of the old one under the current mode's periods, and is marked dirty |
| Plugin.SATpwn.DropExpiredAps | SATpwn.py:311-315 | exactly the expired access points are removed |
| Plugin.SATpwn.DropExpiredClients | SATpwn.py:321-326 | exactly the expired clients of one access point are removed, and nothing else changes |
| Plugin.SATpwn.IngestObservation | SATpwn.py:358-413 | one observation is applied to the memory; it is new exactly when its key is non-empty and unknown; dirty is set exactly when it adds an entry |
| Plugin.SATpwn.IngestClientList | SATpwn.py:398-413 | the client map is the fold of the reported clients; dirty is set exactly when a client is new |
| Plugin.SATpwn.IngestScan | SATpwn.py:355-413 | the memory is the batch's fold; the count is the number of observations that create an access point; dirty is set exactly when some observation adds an entry |
| Plugin.SATpwn.OnUnfilteredApList | SATpwn.py:343-426 | nothing happens before ready; otherwise the batch is ingested, the sample holds the number of new keys, dirty is set exactly when the memory grew, and in auto mode the sub-mode is re-chosen |
| Plugin.SATpwn.RefreshAutoSubmode | SATpwn.py:418-423 | in auto mode the sub-mode becomes the fresh choice and the timer moves; otherwise neither changes |
| Plugin.SATpwn.TotalClients | SATpwn.py:440 | the total is the number of (access point, client) pairs |
| Plugin.SATpwn.UiUpdate | SATpwn.py:428-456 | nothing before ready; otherwise the label, the access-point count, the client total and the glyph (moving, then stationary, then home), with the timer moved only when not moving |
| Plugin.SATpwn.SaveMemory | SATpwn.py:241-259 | the document written is the encoding of the current state, and loading it back over any state restores that state |
| Plugin.SATpwn.LoadMemory | SATpwn.py:261-302 | the memory, mode and timer become what decoding the file gives, and the mode stays valid |
| Plugin.SATpwn.OnEpoch | SATpwn.py:458-470 | nothing before ready; every 10th epoch the memory is swept; every 5th epoch it is written if dirty (a sweep on that epoch makes it dirty) and marked clean |
| Plugin.SATpwn.OnUnload | SATpwn.py:472-476 | the memory is written exactly when dirty |

## Left out

- File and configuration I/O: `os.path.exists`, `open`, the TOML and JSON
  parsers. The configuration and the memory file are datatypes for what
  those produced (missing, unreadable, parsed into the shapes the code tells
  apart). The JSON indentation and the file path are not modelled.
- Clock reads: `time.time()` floats become one integer `now` per handler.
  The source reads the clock separately inside `_update_activity_history`,
  `_is_stationary`, `_is_moving` and `_cleanup_memory`; the model uses the
  handler's `now` for all of them. The save stamp `last_saved`
  (SATpwn.py:248) is the handler's `now`. The age computed from it on load
  (SATpwn.py:289) is only logged, so the model keeps no clock there; it
  models only the failure of that computation on a non-numeric stamp.
- `str.lower()` is modelled for ASCII letters only; `str.strip()` uses
  Python's full whitespace class.
- List whitelist items are taken as already converted by `str(x)`; that
  conversion of numbers, booleans and the like is not modelled.
- Scan data of the wrong type (an access point that is not a dict, a `mac`
  that is `None`) and the `try`/`except` around the batch that would then
  skip the rest of the handler are not modelled. Neither is a legacy record
  without a `clients` entry, which makes the source raise `KeyError`, nor
  a stored record without `last_seen` or `ssid`: the source reads these
  with the defaults 0 (SATpwn.py:312, SATpwn.py:323), so such a record or
  client is dropped at the next sweep once the clock is past the expiry
  period, and "" (SATpwn.py:214), which never matches the whitelist. The model's records always carry both fields.
- A memory file whose top level or `ap_data` is not a JSON object, and a
  saved `stationary_start` that is not a number, are not modelled.
- The thread pool, logging, the `ui.set` call, the glyph strings and the
  status-text format. The status is returned as a value, with the glyph as
  an enumeration.
- The constants and fields the core never uses: scores, cooldowns,
  exploration, `channel_stats`, the recon iterator and `self.agent`.
- `on_loaded` is `_load_memory` followed by a log line, so it is modelled as
  `LoadMemory`.
- The membership re-checks at SATpwn.py:314, 318 and 325 always hold in a
  single-threaded run, so the model does not repeat them.
- Plugin.SATpwn.IngestObservation: each access point's record is written
  back once after its client loop, rather than once per client; the
  resulting state is the same.
- Plugin.SATpwn.HomeSsidVisible: the source walks the memory in insertion
  order and the model in an arbitrary order; the answer does not depend on
  the order.
- The save on a fifth epoch clears the dirty flag even when the write
  failed, because `_save_memory` only logs the error. The model follows the
  code here, not the intent that a failure keeps the memory dirty.
