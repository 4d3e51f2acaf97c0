# LiveSplit.Quake auto splitter — a Dafny model

LiveSplit.Quake is a LiveSplit component that watches a running JoeQuake
process (`joequake-gl`) from the outside. Each frame it reads the game's memory
to learn the current map, the game state (playing, intermission, finale text)
and the in-game clocks. It then starts or splits the host timer when the next
event of a user-configured list occurs, and can publish an in-game time to the
timer.

The project models the component's core, one Dafny module per source file:

- `DeepPointers` (`deep_pointer.dfy`, after `DeepPointer.cs`): resolving a
  pointer chain through a snapshot of the process memory. It covers the
  module lookup, the 32-bit pointer chase that stops at a failed read or a
  null pointer, and the typed reads: integers, floats as raw IEEE bits,
  byte, bool, a three-float vector, and a NUL-terminated string whose buffer
  is decoded as UTF-16 or ASCII by the second-byte heuristic. `DerefOffsets`,
  `ReadProcessString` and the string `Deref` are loops in the source. They are
  methods here, proved against the functions `Resolve`, `ReadString` and
  `DerefString`.
- `LegacyGameInfo` (`legacy_game_info.dfy`, after the older `GameInfo.cs`):
  - the memory-backed `GameInfo` object, with its map tracking and its
    paused, intermission and in-game-time reads;
  - the `LoadedMap`/`Empty` event types;
  - `EventCache.GetEvents`, which builds the 32-entry event registry once and
    caches it.
- `QuakeGame` (`quake_game.dfy`, after the newer `QuakeGame.cs`):
  - the `loaded_map_` id migration (`ReadLegacyEvent`);
  - the newer event types, including "Shub-Niggurath dead";
  - the per-tick time reconciliation of `GameInfo.UpdateInfo`, which folds the
    map time into an accumulated time on entering an intermission, absorbs
    map-time drops from quickloads, stabilises fresh map times below 3 s and
    ignores the `start` map;
  - `ResetInfo`.

  The tick is the function `Tick`. The class `GameInfo` is proved against it,
  and the run lemmas are stated over it.
- `EventSettings` (`settings.dfy`, after `Settings.cs`): the settings object,
  which keeps:
  - the event registry;
  - the list of events offered for selection;
  - the user's ordered list of used events;
  - the update-game-time switch;
  - a dirty flag.

  It models the list editing (add, remove, add all, clear, move up, move
  down), the list the component receives (used events plus a terminating
  `Empty`), and saving and loading settings. The XML document is abstracted
  to the list of event ids and the switch text. `Boolean.TryParse` is
  modelled.
- `AutoSplitter` (`component.dfy`, after `Component.cs`): the component's
  per-frame `Update`. When attached to a live process it:
  1. pauses game time;
  2. advances the game info;
  3. shows the intermission time during an intermission;
  4. evaluates only the event at the timer's split index + 1, starting the
     timer when it is not running and splitting it otherwise;
  5. publishes the game time when the switch is on.

  When not attached it attaches to a found process. The host timer is the
  `Timer` class, with LiveSplit's start and split transitions. `Step` is the
  function `Update` is proved against, and `Run` folds it over a sequence of
  frames.

`wrappers.dfy` holds `Option` and the ordinal string helpers (`Lower`,
`EqualsIgnoreCase`, `RemoveAll`) shared by the modules.

## Model

| member | source | states |
|---|---|---|
| Text.RemoveAll | QuakeGame.cs:23 | removing every occurrence of a non-empty pattern never lengthens the id |
| Text.RemoveAllAbsent | QuakeGame.cs:23 | removing a pattern that does not occur leaves the string unchanged |
| DeepPointers.ReadBytes | DeepPointer.cs:119-124 | a read of n bytes succeeds exactly when all n addresses are mapped, and then yields n bytes |
| DeepPointers.ReadBytesContent | DeepPointer.cs:119-124 | a read of n bytes succeeds exactly when all n addresses are mapped, and byte i of the result is the memory byte at address + i |
| DeepPointers.Bytes | DeepPointer.cs:119-124 | the buffer of a complete read has one byte per requested address, starting with the byte at the read address |
| DeepPointers.BytesAt | DeepPointer.cs:119-124 | byte i of the buffer is the memory byte at address + i |
| DeepPointers.UInt32LE | DeepPointer.cs:132 | a little-endian unsigned 32-bit read lies in 0 .. 2^32-1 |
| DeepPointers.Int32LE | DeepPointer.cs:128 | a signed 32-bit read lies in -2^31 .. 2^31-1 and is the two's-complement reading of the same four bytes as unsigned |
| DeepPointers.UInt32RoundTrip | DeepPointer.cs:132 | decoding the little-endian encoding of any unsigned 32-bit value gives the value back |
| DeepPointers.Int32RoundTrip | DeepPointer.cs:128 | decoding the little-endian encoding of any signed 32-bit value gives the value back |
| DeepPointers.UInt32Bytes | DeepPointer.cs:132 | re-encoding the unsigned little-endian reading of four bytes gives the same four bytes back |
| DeepPointers.SizeOf | DeepPointer.cs:119 | a value type reads one byte exactly when it is a byte, and four bytes otherwise (int, uint, float, and bool as a 4-byte BOOL) |
| DeepPointers.Decode | DeepPointer.cs:126-149 | the decoded value has the variant of the requested type and inverts the little-endian encoding: re-encoding an int, uint or float gives the four bytes back; a byte is the first byte; a bool is true exactly when the first byte is non-zero |
| DeepPointers.ReadValue | DeepPointer.cs:115-152 | a byte read succeeds exactly when one byte is readable at the address and any other typed read (bool included) exactly when four bytes are; a byte read yields the memory byte, a bool read whether that byte is non-zero |
| DeepPointers.HoldsReads | DeepPointer.cs:119-124 | four bytes held in memory at an address are read back exactly |
| DeepPointers.ReadEncodedInt | DeepPointer.cs:126-129 | an int written to memory in little-endian order reads back as the same int, both as a typed read and as a 32-bit pointer |
| DeepPointers.ReadEncodedUInt | DeepPointer.cs:130-137 | a uint written to memory in little-endian order reads back as the same uint, and as the same float bit pattern |
| DeepPointers.ReadPtr32 | DeepPointer.cs:154-163 | a pointer read succeeds exactly when four bytes are readable, and yields a signed 32-bit value |
| DeepPointers.ReadPtr32IsIntRead | DeepPointer.cs:154-163 | a pointer read and a typed int read at the same address succeed together and yield the same value |
| DeepPointers.DeepPointer.Chain | DeepPointer.cs:103 | every offset but the last is dereferenced as a pointer |
| DeepPointers.NewModulePointer | DeepPointer.cs:17-24 | a module-relative pointer keeps the module name and base, and its offsets are 0 followed by the given ones |
| DeepPointers.NewPointer | DeepPointer.cs:26-32 | a main-module pointer has an empty module name and the offsets 0 followed by the given ones |
| DeepPointers.Chase | DeepPointer.cs:103-110 | a chase through at least one offset never succeeds with a null pointer |
| DeepPointers.Resolve | DeepPointer.cs:83-112 | a missing module fails the resolution; without chain offsets the start address is the result; through a chain a successful result is never null |
| DeepPointers.FindModule | DeepPointer.cs:87-93 | the lookup fails exactly when no module's file name equals the name ignoring case; otherwise it returns a matching module |
| DeepPointers.ChaseAppendResult | DeepPointer.cs:103-110 | chasing a + b fails if chasing a fails, and otherwise equals chasing b from where a ended |
| DeepPointers.ChaseAppendReads | DeepPointer.cs:103-110 | the addresses read while chasing a + b are those of a, followed by those of b only when a succeeded |
| DeepPointers.ChaseAppend | DeepPointer.cs:103-110 | the result and the read addresses of a chase split at any point into the two parts |
| DeepPointers.ChaseReadCount | DeepPointer.cs:103-110 | a chase reads at most one pointer per offset, all of them when it succeeds, and stops at the first failing read |
| DeepPointers.ChaseReadAt | DeepPointer.cs:105 | the i-th address read is the pointer reached after i offsets plus the i-th offset |
| DeepPointers.ChaseStopsAt | DeepPointer.cs:105-108 | an unreadable or null pointer at step k fails the whole chase, and no later address is read |
| DeepPointers.ChaseFailsFirst | DeepPointer.cs:105-108 | a failing first read fails the chase after exactly one read |
| DeepPointers.ChaseStep | DeepPointer.cs:105 | a non-null pointer at step k becomes the current address for the next step |
| DeepPointers.ResolveWithoutOffsets | DeepPointer.cs:83-112 | a pointer with no extra offsets resolves to its start address without reading memory |
| DeepPointers.MissingModuleFails | DeepPointer.cs:85-93 | a pointer into a module the process does not have fails without any memory read |
| DeepPointers.DerefOffsets | DeepPointer.cs:83-113 | returns success exactly when the chain resolves, the resolved address on success and 0 on failure, having read exactly the chain's addresses |
| DeepPointers.ChaseLoop | DeepPointer.cs:103-112 | the loop agrees with the recursive chase in outcome, final address and the addresses it read |
| DeepPointers.Deref | DeepPointer.cs:34-46 | a typed deref succeeds exactly when the chain resolves and the value at the last offset is readable; it yields that value, and the type's default on failure |
| DeepPointers.ReadFloatBits | DeepPointer.cs:134-137 | a float read succeeds exactly when four bytes are readable and agrees with the float case of the typed read |
| DeepPointers.ReadVector | DeepPointer.cs:54-56 | a vector read succeeds only if all three floats at +0, +4 and +8 read, and holds them in order |
| DeepPointers.VectorAt | DeepPointer.cs:53-63 | a vector at a resolved address succeeds exactly when the address resolved and all three floats at +0, +4, +8 past the last offset read; on failure the vector is zero |
| DeepPointers.DerefVector | DeepPointer.cs:48-64 | a vector deref succeeds exactly when the chain resolves and all three floats read; on failure the vector is zero |
| DeepPointers.AsciiChar | DeepPointer.cs:175 | 7-bit bytes decode to the same code point, and only byte 0 decodes to NUL |
| DeepPointers.DecodeAscii | DeepPointer.cs:175 | ASCII decoding yields one character per byte |
| DeepPointers.Utf16Units | DeepPointer.cs:173 | the buffer splits into little-endian 16-bit code units, one per byte pair |
| DeepPointers.DecodeUnits | DeepPointer.cs:173 | UTF-16 decoding yields at most one character per code unit |
| DeepPointers.DecodeUnitsPlain | DeepPointer.cs:173 | code units below the surrogate range decode one to one to the same characters |
| DeepPointers.DecodeBuffer | DeepPointer.cs:172-175 | a buffer whose second byte is 0 decodes as UTF-16 to at most one character per byte pair (rounded up); any other buffer decodes as ASCII to one character per byte |
| DeepPointers.UntilNul | DeepPointer.cs:178-185 | the result is the longest NUL-free prefix: it contains no NUL and is followed by NUL or by the end of the text |
| DeepPointers.UntilNulUnique | DeepPointer.cs:178-185 | any NUL-free prefix followed by NUL or by the end is the truncation |
| DeepPointers.BufferCapacity | DeepPointer.cs:68 | the buffer is never empty: a positive maximum length is kept, and 0 selects the default |
| DeepPointers.ReadString | DeepPointer.cs:165-188 | a string read succeeds exactly when the whole buffer is readable, and yields a string without NUL (the prefix property is `ReadStringCut`) |
| DeepPointers.ReadStringCut | DeepPointer.cs:172-185 | a readable buffer yields the decoded text cut at its first NUL: the result is a NUL-free prefix followed by NUL or by the end of the text |
| DeepPointers.ReadProcessString | DeepPointer.cs:165-188 | the decoding loop returns the string read on success and the empty string on failure |
| DeepPointers.StringAt | DeepPointer.cs:72-80 | a string at a resolved address succeeds exactly when the address resolved and the buffer is readable, and is empty otherwise |
| DeepPointers.ReadStringAt | DeepPointer.cs:72-80 | the tail of the string deref returns the same flag and string as the string at the resolved address |
| DeepPointers.DerefString | DeepPointer.cs:66-81 | a string deref succeeds exactly when the chain resolves and the buffer is readable, and yields the empty string otherwise |
| DeepPointers.DerefStringHasNoNul | DeepPointer.cs:66-81 | a dereferenced string never contains NUL |
| DeepPointers.DerefStringFrom | DeepPointer.cs:66-81 | the method returns the same flag and string as the string deref |
| DeepPointers.Utf16Example | DeepPointer.cs:172-173 | a buffer whose second byte is 0 is read as UTF-16: "A\0B\0\0\0" gives "AB" |
| DeepPointers.AsciiExample | DeepPointer.cs:174-175 | a buffer whose second byte is not 0 is read as ASCII: "AB\0" gives "AB" |
| LegacyGameInfo.NextMapState | GameInfo.cs:76-90 | the map counts as changed exactly when the name read is non-empty and differs from the current map; then the old map becomes the previous one, and otherwise nothing moves |
| LegacyGameInfo.UpdateMapTwice | GameInfo.cs:76-90 | reading the same map twice reports a change at most once |
| LegacyGameInfo.CurrMapNeverEmpty | GameInfo.cs:80 | the current map never becomes the empty name |
| LegacyGameInfo.GameInfo.constructor | GameInfo.cs:71-74 | a new game info holds its process and no map |
| LegacyGameInfo.GameInfo.IsPaused | GameInfo.cs:22-36 | paused exactly when the game-state integer resolves, reads and is non-zero |
| LegacyGameInfo.GameInfo.InIntermission | GameInfo.cs:38-52 | in an intermission exactly when the intermission-time integer resolves, reads and is non-zero |
| LegacyGameInfo.GameInfo.IngameTime | GameInfo.cs:54-68 | the total-time float when it can be read through its pointer chain, and 0 otherwise |
| LegacyGameInfo.GameInfo.ReadMap | GameInfo.cs:79 | the map name is the string deref of the map address, at most 5 characters |
| LegacyGameInfo.GameInfo.UpdateMap | GameInfo.cs:76-90 | the map state advances by one map reading, flagging a change exactly for a new non-empty name |
| LegacyGameInfo.GameInfo.Update | GameInfo.cs:92-95 | a frame update is one map update |
| LegacyGameInfo.GameEvent.Id | GameInfo.cs:140-157 | the id is "empty" exactly for the empty event, and a loaded-map id is "loaded_map_" followed by the map name |
| LegacyGameInfo.HasOccured | GameInfo.cs:144-162 | an event occurs only if it is a loaded-map event, outside an intermission, and its map is the current one |
| LegacyGameInfo.OccurrenceIsExclusive | GameInfo.cs:144-147 | at most one loaded-map event occurs in a frame, only outside an intermission and on its own map; the empty event never occurs |
| LegacyGameInfo.EventKeyInjective | GameInfo.cs:140 | two events have the same id exactly when their maps are equal |
| LegacyGameInfo.RegistryHasNames | GameInfo.cs:115-119 | every listed map's id maps to its loaded-map event |
| LegacyGameInfo.RegistryOnlyNames | GameInfo.cs:115-119 | every key of the registry is the id of a listed map |
| LegacyGameInfo.KeyFresh | GameInfo.cs:117 | a map not yet listed has no entry yet, so adding it never collides |
| LegacyGameInfo.RegistrySize | GameInfo.cs:115-119 | distinct map names give as many registry entries as names |
| LegacyGameInfo.RegistryOfShape | GameInfo.cs:104-123 | a registry built from names holds exactly the names' events under their ids |
| LegacyGameInfo.RegistryStep | GameInfo.cs:115-118 | each loop step adds a fresh key for its map, so the dictionary insertion never throws |
| LegacyGameInfo.MapNamesDistinct | GameInfo.cs:108-113 | the 32 listed map names are pairwise distinct |
| LegacyGameInfo.RegistryShape | GameInfo.cs:104-123 | the registry has 32 entries, one per listed map, each stored under its own id |
| LegacyGameInfo.EventCache.constructor | GameInfo.cs:100 | the cache starts empty |
| LegacyGameInfo.EventCache.GetEvents | GameInfo.cs:104-123 | returns the registry, and after the first call returns the same cached dictionary |
| QuakeGame.ReadLegacyEvent | QuakeGame.cs:18-33 | an id names a loaded-map event exactly when it starts with "loaded_map_", and then the map is the id with every "loaded_map_" removed; any other id gives the empty event |
| QuakeGame.ReadLegacyMapId | QuakeGame.cs:20-23 | an id written as "loaded_map_" + m reads back as m when m does not contain the prefix |
| QuakeGame.ShortNameHasNoPrefix | QuakeGame.cs:23 | a name shorter than the prefix cannot contain it |
| QuakeGame.ReadLegacyShortIds | QuakeGame.cs:20-23 | an old id built from any name shorter than the prefix, which covers every registry name (at most 5 characters), reads back as that name's map event |
| QuakeGame.ReadLegacyDoublePrefix | QuakeGame.cs:20-32 | a doubled prefix is removed twice, and "empty" or the bare prefix without underscore give the empty event |
| QuakeGame.HasOccured | QuakeGame.cs:48-66 | an occurring event is never the empty event and needs a current map; a loaded-map event needs a map change, and the boss event needs a state other than playing |
| QuakeGame.LoadedMapExclusive | QuakeGame.cs:48-51 | at most one loaded-map event occurs in a tick: the current map, and only on the tick it changed |
| QuakeGame.ShubNiggurathDeadOnTick | QuakeGame.cs:63-66 | after a tick the boss event occurs exactly when the read map is "end" and the state taken on that tick (the read one, or the previous one when unreadable) is the finale text; never in intermission |
| QuakeGame.ShubNiggurathDeadPersists | QuakeGame.cs:63-66 | the boss event does not depend on a map change: it keeps occurring on every later tick that stays on "end" in the finale-text state, while the loaded-map event for "end" does not fire again |
| QuakeGame.NextMap | QuakeGame.cs:101-116 | the tick's map becomes current, and the change flag is set exactly when it differs from the previous map; the timing fields are kept |
| QuakeGame.TickMap | QuakeGame.cs:120 | after a tick the read map is current, and the change flag says whether it differs |
| QuakeGame.Tick | QuakeGame.cs:118-177 | after a tick the read map is current; during play the fold flag is cleared and the game time is map time plus accumulated time, outside play the flag is set and the game time is the accumulated time |
| QuakeGame.FoldMapTime | QuakeGame.cs:130-148 | without a QdQ map time reading nothing changes; with one, map time becomes 0 and only the accumulated time moves: up by the reading when it is positive, and up by the old map time otherwise |
| QuakeGame.TickGameState | QuakeGame.cs:122-126 | a readable state is taken, and an unreadable one keeps the previous state |
| QuakeGame.TickFlagAndGameTime | QuakeGame.cs:128-176 | the fold flag is set exactly outside play; the game time is the accumulated time outside play and map time plus accumulated time during play |
| QuakeGame.FoldOnEntry | QuakeGame.cs:130-148 | on the first tick outside play the positive QdQ map time reading, or else the last map time, is added to the accumulated time, and map time becomes 0 |
| QuakeGame.FoldAtMostOnce | QuakeGame.cs:130-150 | once folded, later ticks outside play change neither clock |
| QuakeGame.NoSecondFold | QuakeGame.cs:130-148 | two consecutive ticks outside play fold at most once |
| QuakeGame.PlayingSumNeverDecreases | QuakeGame.cs:152-176 | while playing off the start map, map time plus accumulated time never decreases, nor does the accumulated time |
| QuakeGame.DropIsAbsorbed | QuakeGame.cs:159-162 | a map-time drop, as after a quickload, moves the lost amount into the accumulated time and leaves the published game time where it was |
| QuakeGame.Stabilisation | QuakeGame.cs:164-167 | from map time 0, a fresh reading is accepted only below 3 s |
| QuakeGame.StabilisationBoundary | QuakeGame.cs:164 | the 3 s threshold is strict: 3.0 is refused and 2.999 accepted |
| QuakeGame.StartMapCountsNothing | QuakeGame.cs:170-175 | on the start map, map time is 0 and the game time is the accumulated time |
| QuakeGame.QuickloadExample | QuakeGame.cs:157-175 | a quickload from 12 s of map time back to 0.4 s, with 5 s accumulated, moves 11.6 s into the accumulated time (16.6 s) and keeps the game time at 17 s |
| QuakeGame.PlayingRunMonotone | QuakeGame.cs:152-176 | over any run of playing ticks off the start map, the published game time never decreases |
| QuakeGame.LoadedMapOncePerLoad | QuakeGame.cs:101-116 | a newly loaded map fires its loaded-map event on that tick and not on the next tick on the same map |
| QuakeGame.ResetChangesOnlyItsFields | QuakeGame.cs:179-184 | a reset empties the map, returns to play and zeroes the accumulated time, keeping every other field |
| QuakeGame.ResetReloadsMap | QuakeGame.cs:179-184 | after a reset the next tick on a non-empty map fires that map's loaded-map event again |
| QuakeGame.Reset | QuakeGame.cs:179-184 | a reset returns to play with no accumulated time, after which any non-empty map read counts as a change; only the map, the state and the accumulated time change |
| QuakeGame.GameInfo.constructor | QuakeGame.cs:93-99 | a new game info starts in the initial state |
| QuakeGame.GameInfo.UpdateMap | QuakeGame.cs:101-116 | the object's state advances as the map transition says |
| QuakeGame.GameInfo.UpdateInfo | QuakeGame.cs:118-177 | the object's state after an update is the tick of the previous state with the frame's readings |
| QuakeGame.GameInfo.ResetInfo | QuakeGame.cs:179-184 | the object's state after a reset is the reset of the previous state |
| EventSettings.AvailEvents | Settings.cs:30-33 | the offered list holds one loaded-map event per listed map, in the registry's insertion order |
| EventSettings.ListValues | Settings.cs:30-33 | listing the registry's values yields each name's event, in order, each one registered under its own id |
| EventSettings.RegistryHoldsAvailEvents | Settings.cs:28-33 | the registry is keyed by event id and holds every offered event |
| EventSettings.Kept | Settings.cs:67-70 | removing selected items never lengthens the list |
| EventSettings.KeptShape | Settings.cs:63-74 | removal deletes exactly the selected items and keeps registered events registered; removing none or all gives the list or nothing |
| EventSettings.KeptRemoveMarked | Settings.cs:67-70 | removing one selected item first, then the rest, gives the same list |
| EventSettings.FirstSelected | Settings.cs:99 | finds the lowest selected index, or reports that none is selected |
| EventSettings.MovedUp | Settings.cs:97-109 | moving up swaps an item with its predecessor, keeps the same elements, and does nothing at index 0 |
| EventSettings.MovedDown | Settings.cs:111-123 | moving down swaps an item with its successor, keeps the same elements, and does nothing at the last index |
| EventSettings.MoveUpDownInverse | Settings.cs:97-123 | moving an item up and then down again, or down and then up, restores the list |
| EventSettings.MoveUpSplice | Settings.cs:102-104 | removing the item at i and inserting it at i - 1 is the move up |
| EventSettings.MoveDownSplice | Settings.cs:116-118 | removing the item at i and inserting it at i + 1 is the move down |
| EventSettings.MovedUpRegistered | Settings.cs:97-109 | moving up keeps a list of registered events registered |
| EventSettings.MovedDownRegistered | Settings.cs:111-123 | moving down keeps a list of registered events registered |
| EventSettings.Ids | Settings.cs:145-150 | one saved id per used event |
| EventSettings.Load | Settings.cs:165-171 | loading yields no more events than there are saved ids, each of them an event of the registry |
| EventSettings.LoadFilters | Settings.cs:165-171 | loading keeps only registered events; the event of every registered id is loaded, so when all ids are known there is one event per id, and nothing is loaded when no id is known (the order is `LoadInDocumentOrder`) |
| EventSettings.LoadOne | Settings.cs:167-170 | a single id loads its registry entry when the registry knows it, and nothing otherwise |
| EventSettings.LoadAppend | Settings.cs:165-171 | loading a concatenation of id lists is loading each part, in order |
| EventSettings.LoadInDocumentOrder | Settings.cs:165-171 | loading equals reading the document front to back and appending one entry for each known id and none for an unknown one, so duplicates load twice and order is kept |
| EventSettings.IdsRoundTrip | Settings.cs:139-171 | loading the saved ids of registered events gives back the same list |
| EventSettings.TrimStart | Settings.cs:179 | leading whitespace is removed: the result is a suffix that starts with a non-blank, and every removed character is blank |
| EventSettings.TrimEnd | Settings.cs:179 | trailing whitespace is removed: the result is a prefix that ends with a non-blank, and every removed character is blank |
| EventSettings.TryParseBool | Settings.cs:179 | parses true or false exactly when the trimmed text equals "True" or "False" ignoring case, and fails otherwise |
| EventSettings.BoolTextRoundTrip | Settings.cs:154 | the saved text of the switch parses back to the same value |
| EventSettings.TrueTextParses | Settings.cs:154 | the text written for true, "True", parses as true |
| EventSettings.FalseTextParses | Settings.cs:154 | the text written for false, "False", parses as false |
| EventSettings.TryParseBoolAccepts | Settings.cs:179 | lower-case "true" parses |
| EventSettings.TryParseBoolRejectsWord | Settings.cs:179 | "yes" does not parse |
| EventSettings.TryParseBoolRejectsEmpty | Settings.cs:179 | the empty text does not parse |
| EventSettings.LoadedFlag | Settings.cs:178-183 | the switch takes the parsed value, and keeps its value when the element is missing or does not parse |
| EventSettings.Settings.constructor | Settings.cs:24-35 | the settings start with the registry, the offered list in registry order, no used events and both flags off |
| EventSettings.Settings.GetEventList | Settings.cs:37-48 | the component receives a fresh array of the used events followed by the empty event |
| EventSettings.Settings.AddEvents | Settings.cs:50-61 | the selected offered events are appended in selection order, and the change is flagged |
| EventSettings.Settings.RemoveEvents | Settings.cs:63-74 | exactly the selected used events are removed, and the change is flagged |
| EventSettings.Settings.AddAllEvents | Settings.cs:76-87 | the whole offered list is appended, and the change is flagged |
| EventSettings.Settings.ClearEvents | Settings.cs:89-94 | the used list is emptied without flagging a change |
| EventSettings.Settings.MoveUp | Settings.cs:97-109 | the selected used event moves one place up |
| EventSettings.Settings.MoveDown | Settings.cs:111-123 | the selected used event moves one place down |
| EventSettings.Settings.SetUpdateGameTime | Settings.cs:125-128 | the switch follows the check box, and nothing else changes |
| EventSettings.Settings.HandleDestroyed | Settings.cs:130-137 | the change event is raised exactly when a change was pending, and the flag is cleared |
| EventSettings.Settings.GetSettings | Settings.cs:139-158 | the saved document holds the used ids and the switch text, and both load back to the current settings |
| EventSettings.Settings.SetSettings | Settings.cs:160-184 | a present event list appends its known events and raises the change event, clearing the flag; the switch takes the loaded flag |
| EventSettings.Settings.LoadGameTimeFlag | Settings.cs:178-183 | the switch becomes the loaded flag, and the lists do not change |
| EventSettings.Settings.AppendKnown | Settings.cs:162-172 | the events of the known ids are appended in document order |
| EventSettings.SettingsRoundTrip | Settings.cs:139-184 | saving a valid settings object and loading the document into a new one restores the used events and the switch, with no change left pending |
| AutoSplitter.TimerTransitions | Component.cs:61-69 | start and split keep the timer consistent; start advances only a stopped timer, split only a running one, and a split on the last segment ends the run |
| AutoSplitter.Timer.constructor | Component.cs:36 | the host timer starts stopped, before its first segment |
| AutoSplitter.Timer.Start | Component.cs:64 | the host timer makes the start transition |
| AutoSplitter.Timer.Split | Component.cs:68 | the host timer makes the split transition |
| AutoSplitter.Timer.SetGameTime | Component.cs:56 | only the game time changes |
| AutoSplitter.Timer.PauseGameTime | Component.cs:51 | only the pause flag changes |
| AutoSplitter.LiveTick | Component.cs:49-76 | a live frame pauses game time and keeps the segments; the phase and split index move only when the cursor event fires; with the switch on the game time is intermission plus map time |
| AutoSplitter.Step | Component.cs:47-85 | a frame keeps the event list; the splitter is attached afterwards exactly when the process was live or was found; without a live process the timer is untouched and a found process gets a fresh game info |
| AutoSplitter.StepAdvancesCursor | Component.cs:59-70 | a frame keeps the splitter ready and the event list fixed; the split index advances by one exactly when the process is live, the timer is stopped or running, and the event at the cursor occurred |
| AutoSplitter.DetachedFrame | Component.cs:77-84 | without a live process the timer is untouched, and a found process is attached with a fresh game info |
| AutoSplitter.SentinelStopsSplitting | Component.cs:59 | once the cursor reaches the terminating empty event, the timer neither starts nor splits again |
| AutoSplitter.OnlyCursorEvaluated | Component.cs:59 | the timer's next state depends on the event list only through the event at the cursor |
| AutoSplitter.PublishedGameTime | Component.cs:51-75 | a live frame pauses game time and ticks the game info; with the switch on it publishes intermission plus map time, and with it off it shows the intermission time during an intermission unless that frame starts the timer |
| AutoSplitter.Run | Component.cs:47-85 | every state along a run of frames is ready and keeps the same event list |
| AutoSplitter.StepsByOneCons | Component.cs:59-70 | a step of at most one followed by a trace stepping by at most one steps by at most one |
| AutoSplitter.RunStepsByOne | Component.cs:59-70 | each frame of a run moves the split index by zero or one |
| AutoSplitter.StepsNeverBack | Component.cs:59-70 | split indices that move by zero or one per frame never fall below the start or an earlier frame's |
| AutoSplitter.RunCursorMonotone | Component.cs:59-70 | along any run no frame's split index is below the start's or an earlier frame's, and each frame grows it by at most one |
| AutoSplitter.EventsFireInOrder | Component.cs:59-70 | events fire in list order, each at most once: two advancing frames fire strictly increasing indices |
| AutoSplitter.Component.constructor | Component.cs:34-40 | the component starts detached, with only the terminating empty event in its list |
| AutoSplitter.Component.OnReset | Component.cs:42-45 | a host reset resets the game info |
| AutoSplitter.Component.Update | Component.cs:47-85 | the component's state after a frame is the frame step of its previous state, and it stays ready |
| AutoSplitter.Component.LiveFrame | Component.cs:49-76 | a live frame ticks the game info and moves the timer as the live-frame transition says |
| AutoSplitter.Component.OnEventsChanged | Component.cs:87-90 | the event list is refreshed from the settings, ending in the empty event, and the splitter stays consistent |
| AutoSplitter.Component.GetSettings | Component.cs:97-100 | the saved document holds the used events' ids and the switch text, which load back to the current used events and switch |
| AutoSplitter.Component.SetSettings | Component.cs:102-105 | a document with an event list appends its known events to the settings, clears the pending change and refreshes the component's list; without one the used events, the pending flag and the list are kept; the switch takes the loaded flag |

## Left out

- Reading another process's memory (`ReadProcessMemory` and the kernel32 import) is modelled as a snapshot map from address to byte. A read succeeds only if every byte is mapped; partial reads are failures.
- Addresses are unbounded integers. The 32-bit or 64-bit width of `IntPtr` and overflow in address arithmetic are not modelled.
- Floats: `DeepPointers` keeps a float as its raw 32 IEEE bits, and `QuakeGame` models the game's clocks as reals, so single-precision rounding is not captured. `TimeSpan.FromSeconds` rounding is not modelled; the timer stores seconds.
- Vector3f's distance, length and string members need floating-point arithmetic and are not modelled. Only the three-float read is.
- DeepPointers.DecodeUnits: a valid surrogate pair decodes to one Dafny character, where .NET keeps two UTF-16 code units, so string lengths (such as the `|mapName| <= MaxMapLength` bound of `LegacyGameInfo.GameInfo.ReadMap`) count a pair once.
- .NET encodings: ASCII decoding maps bytes above 0x7F to '?', and UTF-16 decoding replaces a lone surrogate or a trailing odd byte with U+FFFD. These follow the documented replacement behaviour.
- `ToLower` in the module lookup and `String.Equals(..., OrdinalIgnoreCase)` are modelled as ASCII-only lower-casing. Culture-specific case mappings are not captured.
- The "Type not supported" exception of `ReadProcessValue` becomes the closed set of value kinds, so it cannot occur.
- In the newer revision, `GameInfo` reads memory through the base library's `ComponentAutosplitter` helpers, which are not part of this model. Their per-frame results (map name, state, QdQ map time read at offset 0x335C, map time) are the `TickReads` inputs; a failed map read gives "". The addresses declared at `QuakeGame.cs:88-91` are only passed to those helpers, so they are not modelled either.
- `Process.GetProcessesByName("joequake-gl")`, `HasExited` and the choice of the first process are the inputs `found` and `exited` of an `Observation`.
- AutoSplitter: the component's intermission test comes from the older `GameInfo` revision. The newer `GameInfo` has no such member, so it is a per-frame input `inIntermission`.
- AutoSplitter.Timer: LiveSplit's `TimerModel` is not part of this model. Start and split follow its documented phases, but its real-time check, undo, skip, pause and reset are not driven by the component.
- AutoSplitter.Component.OnReset: requires an attached game info. The source dereferences `info` unconditionally, which throws before the first attach.
- AutoSplitter.Component.Update: requires the split index to lie in the event list. When the list shrinks during a run the source indexes out of range and throws; the model does not reproduce the exception.
- AutoSplitter.Run: the update-game-time switch is fixed over a run; a change between frames is a new run.
- Windows Forms: the list boxes are sequences and the selection is a parameter.
- EventSettings.Settings.MoveUp and EventSettings.Settings.MoveDown: these take a single selected index. The source loops over `SelectedIndices` while moving items, and that enumeration during mutation is not captured.
- XML: the settings document is abstracted to an optional list of ids and an optional switch text. Element names and the `XmlDocument` API are not modelled.
- QuakeGame.StartsWith: the culture-sensitive `String.StartsWith(string)` of QuakeGame.cs:21 is modelled as an ordinal, character-by-character comparison; characters that the culture comparison ignores, such as a soft hyphen in "loaded_\u00ADmap_e1m1", are not skipped.
- EventSettings.TrimStart and EventSettings.TrimEnd: trim ASCII whitespace and NUL, as `Boolean.TryParse` does for those characters. Other Unicode whitespace is not trimmed.
- `Dictionary.Values` is assumed to enumerate in insertion order, which is what the offered list relies on.
- Display strings (`ToString`, `Description`, `Name`, `EventTypes`) and `Dispose`/`GetSettingsControl` are not modelled.
- `Factory.cs` and `Settings.Designer.cs` are not part of this model.
- The event registry built in `GameInfo.cs:108-113` lists 32 maps: start, 30 episode maps (e1m1-e1m8, e2m1-e2m7, e3m1-e3m7, e4m1-e4m8) and end. The model uses those 32.
- The newer tick keeps no separate saved-total-time or reset counter, and none is modelled. The accumulated `IntermissionTime` plays that role, as `QuakeGame.cs:118-177` does.
