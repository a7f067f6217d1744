# GemRB Xbox port: resource cache, ADPCM decoder and native script glue, in Dafny

This project models five pieces of the GemRB Xbox port and proves properties of them.

- **XboxMemoryManager** is the resource cache. It tracks each resource by id, with its size, type, last access time, access count and static flag. It also keeps a byte counter per type, soft limits per type, and a maintenance clock.
  - Resources are registered, unregistered and touched.
  - A sweep (TriggerCleanup) evicts stale non-static records oldest first until a byte target is met.
  - Per-type sweeps remove expired records of one type.
  - GetMemoryInfo classifies memory pressure. Update is the periodic maintenance tick.
  - The model is the class `MemoryManager` (xbox_memory.dfy). Its state changes are specified by the value-level functions and lemmas in xbox_memory_spec.dfy.
  - The central invariant is `Covered`: no counter is below the bytes of its live records. It is what makes every counter subtraction in the source safe. The stronger `Exact` (every counter equals its live bytes) is kept by every operation except re-registration of an id that is already present.
- **XboxAutoPtr** is the RAII holder that ties a pointer to a tracked id. It is the class `AutoPtr` (xbox_auto_ptr.dfy). Its operations touch or unregister the id on the manager.
- **The IMA/DVI ADPCM decoder** (`ADPCMDecoder`) is the class `AdpcmDecoder` (adpcm.dfy). Its array of two channel states is updated in place, and its decode loop writes an output array.
  - The function `Run` states what a whole decode yields.
  - For mono, `Run` equals `Stream`, the single-channel decode of the codes in low-nibble-first order.
  - **XboxAudio** (xbox_audio.dfy) drives the decoder in `DecodeADPCM` and keeps the counter of decoded PCM bytes.
- **CppScript** (cpp_script.dfy) is the native script engine's module table. Init registers the modules once. RunFunction dispatches a call: the module name is matched case-insensitively and the function name exactly.
- **CppScriptAPI** (cpp_script_api.dfy) covers GetGameTime and `GUICommon::SetGamedaysAndHourToken`. That function turns the game clock into the GAMEDAYS and HOUR tokens.

The clock (`GetMilliseconds`) is a `now` parameter. The loaded game and the token dictionary are fields of an `Interface` object. What a registered script callable does is a `call` parameter.

Some quirks of the source are modelled as written and exposed as lemmas:

- Re-registering a present id overwrites the record without subtracting the old size (`ReRegisterOvercounts`, `ReRegisterBreaksExact`).
- `Update` tests isLow before isCritical. Critical implies low, so its aggressive branch is unreachable (`UpdateNeverAggressive`).
- The per-type sweeps look for "texture", "sound" and "animation". The default limits use the plural names, so records filed under the default names are never swept by them (`CategorySweepsMissDefaults`).
- `now - age` wraps on the unsigned tick type while the clock is younger than the age. Every non-static record is then a sweep candidate (`EarlySweepTakesEverything`).
- `std::sort` is not stable. The sort is specified only as sorted and a permutation, so nothing depends on the order among equal timestamps.

## Model

| member | source | states |
|---|---|---|
| XboxMemorySpec.TickSub | platforms/xbox/XboxMemory.cpp:80 | unsigned tick subtraction: the plain difference when no wrap, else it wraps modulo 2^64 |
| XboxMemorySpec.CleanupDue | platforms/xbox/XboxMemory.cpp:80 | Update's interval test on wrapped ticks: with no wrap, due iff more than 30000 ticks passed; if the clock reads below lastCleanup, due unless the wrapped gap is within 30000 |
| XboxMemorySpec.CleanupThreshold | platforms/xbox/XboxMemory.cpp:180 | the sweep threshold is now minus 10 s (aggressive) or 60 s; while the clock is younger than that age it wraps to a value above now |
| XboxMemorySpec.RegisterAccounting | platforms/xbox/XboxMemory.cpp:144-145 | registering keeps every counter at or above its live bytes; with a fresh id, exact counters stay exact |
| XboxMemorySpec.Registered | platforms/xbox/XboxMemory.cpp:136-145 | registration installs the record under its id, leaves every other record, adds its size to its type's counter and leaves the other counters |
| XboxMemorySpec.ReRegisterOvercounts | platforms/xbox/XboxMemory.cpp:144-145 | re-registering a present id leaves its old type's counter above its live bytes by exactly the old record's size |
| XboxMemorySpec.ReRegisterBreaksExact | platforms/xbox/XboxMemory.cpp:144-145 | hence re-registering a non-empty record breaks the invariant that counters equal live bytes |
| XboxMemorySpec.UnregisterKeepsAccounting | platforms/xbox/XboxMemory.cpp:157-165 | unregistering keeps the counter invariant (no wrap in the subtraction), keeps exact counters exact and adds no counter |
| XboxMemorySpec.UnregisterIdempotent | platforms/xbox/XboxMemory.cpp:157-165 | unregistering twice leaves the same records and counters as unregistering once |
| XboxMemorySpec.Unregistered | platforms/xbox/XboxMemory.cpp:159-164 | unregistering removes exactly that id, leaves every other record unchanged, keeps the counter keys, and lowers the removed record's type counter by its size and no other counter |
| XboxMemorySpec.TouchKeepsAccounting | platforms/xbox/XboxMemory.cpp:167-174 | touch sets lastAccessed to now and increments accessCount of a present id; sizes, types, static flags, ids and counters are unchanged |
| XboxMemorySpec.Touched | platforms/xbox/XboxMemory.cpp:169-173 | a touch keeps the ids and the counters; a present record gets lastAccessed = now and one more access, everything else about it and every other record unchanged |
| XboxMemorySpec.SweepKeepsStatic | platforms/xbox/XboxMemory.cpp:176-211 | a sweep never removes or alters a static record |
| XboxMemorySpec.IsSweep | platforms/xbox/XboxMemory.cpp:176-211 | a sweep only removes records: every survivor is unchanged, every removed id is among the evicted, and the counter keys stay |
| XboxMemorySpec.SweepSparesRecent | platforms/xbox/XboxMemory.cpp:180-194 | once the clock is past the age, every record a sweep removes was accessed strictly before now − 10 s (aggressive) or now − 60 s |
| XboxMemorySpec.EarlySweepTakesEverything | platforms/xbox/XboxMemory.cpp:180 | before the clock reaches the age the threshold wraps and every non-static record not from the future is a candidate |
| XboxMemorySpec.SweepStopsAtTarget | platforms/xbox/XboxMemory.cpp:189-204 | every proper prefix of the evicted ids freed less than the target, so the sweep stops right after reaching it |
| XboxMemorySpec.SweepKeepsDrift | platforms/xbox/XboxMemory.cpp:197 | a sweep lowers each counter by exactly the bytes it removes from that type, keeping its distance to the live bytes |
| XboxMemorySpec.SweptCategory | platforms/xbox/XboxMemory.cpp:217-227 | after a per-type sweep a record is present iff it was present and not expired (that type, older than the threshold, non-static), unchanged |
| XboxMemorySpec.Expired | platforms/xbox/XboxMemory.cpp:218-220 | a per-type sweep removes a record iff it is of that type and a sweep candidate (non-static, accessed before the threshold) |
| XboxMemorySpec.CategorySweepsMissDefaults | platforms/xbox/XboxMemory.cpp:213-262 | a record filed under a default (plural) type is never expired for the singular type names the sweeps test |
| XboxMemorySpec.WithDefaultCacheSizes | platforms/xbox/XboxMemory.cpp:50-53 | Initialize's limits: the existing keys plus textures, sounds, animations and scripts |
| XboxMemorySpec.MemoryInfoFor | platforms/xbox/XboxMemory.cpp:97-119 | total is 64 MiB, used + available = total, used is at most the counted sum, critical implies low |
| XboxMemorySpec.PressureThresholds | platforms/xbox/XboxMemory.cpp:115-116 | low iff the counted sum is at least 57042535 bytes, critical iff at least 63753421 |
| XboxMemorySpec.UpdateAction | platforms/xbox/XboxMemory.cpp:83-91 | the normal sweep iff memory is low, the aggressive one iff critical but not low, none otherwise |
| XboxMemorySpec.UpdateNeverAggressive | platforms/xbox/XboxMemory.cpp:83-91 | Update's decision is never the aggressive sweep, and it is the normal sweep exactly when memory is low |
| XboxMemory.SortOldestFirst | platforms/xbox/XboxMemory.cpp:184-187 | the result is a permutation of the candidates (same length, same elements, distinct) ordered by non-decreasing lastAccessed |
| XboxMemory.SweepOrderFacts | platforms/xbox/XboxMemory.cpp:184-204 | a prefix of the sorted candidates is distinct, sorted, all candidates, and no candidate left behind is older than one taken |
| XboxMemory.MemoryManager.constructor | platforms/xbox/XboxMemory.cpp:33-41 | the statics start uninitialized, with no records, limits or counters, and lastCleanup 0 |
| XboxMemory.MemoryManager.Initialize | platforms/xbox/XboxMemory.cpp:43-57 | once: installs the four default limits and sets lastCleanup to now; again: changes nothing |
| XboxMemory.MemoryManager.Shutdown | platforms/xbox/XboxMemory.cpp:59-71 | when initialized, sweeps then clears all records and counters and drops the flag; otherwise changes nothing |
| XboxMemory.MemoryManager.Update | platforms/xbox/XboxMemory.cpp:73-95 | acts only when initialized and more than 30000 ticks passed; then runs the sweep Update's decision names and sets lastCleanup to now |
| XboxMemory.MemoryManager.GetMemoryInfo | platforms/xbox/XboxMemory.cpp:97-119 | the snapshot for the sum of all counters |
| XboxMemory.MemoryManager.IsMemoryLow | platforms/xbox/XboxMemory.cpp:121-124 | true iff the counted sum is at least 57042535 bytes |
| XboxMemory.MemoryManager.IsMemoryCritical | platforms/xbox/XboxMemory.cpp:126-129 | true iff the counted sum is at least 63753421 bytes |
| XboxMemory.MemoryManager.RegisterResource | platforms/xbox/XboxMemory.cpp:131-155 | no-op before Initialize; else installs the record (now, count 1) and adds size to its type's counter, then sweeps normally exactly when the type has a limit and the counter exceeds it |
| XboxMemory.MemoryManager.UnregisterResource | platforms/xbox/XboxMemory.cpp:157-165 | drops a present record and subtracts its size from its type's counter; an absent id changes nothing |
| XboxMemory.MemoryManager.TouchResource | platforms/xbox/XboxMemory.cpp:167-174 | refreshes a present record's timestamp and count; nothing else changes |
| XboxMemory.MemoryManager.TriggerCleanup | platforms/xbox/XboxMemory.cpp:176-211 | the result is a sweep: unused candidates only, oldest first, stopping right after a quarter (aggressive) or an eighth of 64 MiB, counters losing exactly the evicted bytes; freed is the sum of their sizes |
| XboxMemory.MemoryManager.EvictOldest | platforms/xbox/XboxMemory.cpp:192-204 | the eviction loop takes a prefix of the candidates, frees their sizes and stops at the first prefix reaching the target, or takes them all |
| XboxMemory.MemoryManager.GetUnusedResources | platforms/xbox/XboxMemory.cpp:327-338 | the distinct ids of the non-static records accessed strictly before the threshold |
| XboxMemory.MemoryManager.GetSystemMemoryUsage | platforms/xbox/XboxMemory.cpp:340-347 | the sum of all category counters |
| XboxMemory.MemoryManager.CleanupUnusedOfType | platforms/xbox/XboxMemory.cpp:213-262 | a per-type sweep removes exactly the expired records of that type; only that type's counter moves |
| XboxMemory.MemoryManager.CleanupUnusedTextures | platforms/xbox/XboxMemory.cpp:213-228 | the per-type sweep of "texture" with a 30 s age: exactly the expired records go; the "texture" counter keeps its distance to its live bytes, the other counters, the counter keys, the limits, the flag and lastCleanup are unchanged |
| XboxMemory.MemoryManager.CleanupUnusedSounds | platforms/xbox/XboxMemory.cpp:230-245 | the per-type sweep of "sound" with a 15 s age: exactly the expired records go; the "sound" counter keeps its distance to its live bytes, the other counters, the counter keys, the limits, the flag and lastCleanup are unchanged |
| XboxMemory.MemoryManager.CleanupUnusedAnimations | platforms/xbox/XboxMemory.cpp:247-262 | the per-type sweep of "animation" with a 45 s age: exactly the expired records go; the "animation" counter keeps its distance to its live bytes, the other counters, the counter keys, the limits, the flag and lastCleanup are unchanged |
| XboxMemory.MemoryManager.SetCacheSize | platforms/xbox/XboxMemory.cpp:271-275 | sets one type's limit, changing nothing else |
| XboxMemory.MemoryManager.OptimizeForFrameRate | platforms/xbox/XboxMemory.cpp:294-303 | lowers the texture and sound limits to 12 and 6 MiB, then runs a normal sweep; the flag and lastCleanup are unchanged |
| XboxMemory.MemoryManager.ReduceMemoryFootprint | platforms/xbox/XboxMemory.cpp:305-315 | lowers the texture, sound and animation limits to 8, 4 and 2 MiB, then runs an aggressive sweep; the flag and lastCleanup are unchanged |
| XboxAutoPtr.AutoPtr.constructor | platforms/xbox/XboxMemory.h:103-109 | takes the pointer and id; touches the id iff the pointer is non-null and the id non-empty, else leaves the manager alone |
| XboxAutoPtr.AutoPtr.Destroy | platforms/xbox/XboxMemory.h:111-117 | unregisters the id iff it was tracked (non-null pointer, non-empty id), then drops the pointer |
| XboxAutoPtr.AutoPtr.Release | platforms/xbox/XboxMemory.h:123-128 | returns the held pointer and nulls it without calling the manager, so the id is no longer tracked |
| XboxAutoPtr.AutoPtr.Reset | platforms/xbox/XboxMemory.h:130-141 | unregisters the old id if tracked, installs the new pointer and id, then touches the new id if tracked |
| Adpcm.NibbleStep | platforms/xbox/XboxAudio.cpp:327-355 | one code keeps the predictor in int16 and the step index in 0..88; codes 8..15 never raise the predictor and 0..7 never lower it; the index moves by −1..+8 |
| Adpcm.MagnitudeApproximates | platforms/xbox/XboxAudio.cpp:329-334 | the difference a code adds is at most (2m+1)/8 of the step (m its low three bits) and short of it by less than 18/8 |
| Adpcm.Magnitude | platforms/xbox/XboxAudio.cpp:329-334 | the difference a code adds is at most step/8 + step + step/2 + step/4 |
| Adpcm.SignBitOnlyFlipsDirection | platforms/xbox/XboxAudio.cpp:327-352 | codes n and n+8 share magnitude and index adjustment; the first adds, the second subtracts, then clamps |
| Adpcm.DecodeByte | platforms/xbox/XboxAudio.cpp:298-311 | one byte yields min(room, 2) samples; in mono the right channel is untouched |
| Adpcm.Advance | platforms/xbox/XboxAudio.cpp:297-311 | one loop turn reads one byte, keeps the channel states valid and writes min(room, 2) samples, using up that much room |
| Adpcm.Drain | platforms/xbox/XboxAudio.cpp:297-312 | the loop from a given state yields min(room, 2·bytes left) more samples and reads min(bytes left, ⌈room/2⌉) more bytes |
| Adpcm.Run | platforms/xbox/XboxAudio.cpp:289-316 | a whole decode yields min(room, 2·bytes) samples and consumes min(bytes, ⌈room/2⌉) bytes, leaving valid states |
| Adpcm.RunInRange | platforms/xbox/XboxAudio.cpp:297-312 | every decoded sample fits int16, so the int16 store loses nothing |
| Adpcm.MonoDrainIsStream | platforms/xbox/XboxAudio.cpp:297-312 | in mono, the loop appends the single-channel decode of the remaining codes, low nibble first, cut at the room left |
| Adpcm.MonoRunIsStream | platforms/xbox/XboxAudio.cpp:296-312 | a mono decode equals the single-channel decode of the codes in low-then-high order, cut at the room |
| Adpcm.AdpcmDecoder.constructor | platforms/xbox/XboxAudio.cpp:263-270 | no data, mono, 22050 Hz, not initialized, both channels at predictor 0 and step index 0 |
| Adpcm.AdpcmDecoder.Initialize | platforms/xbox/XboxAudio.cpp:276-287 | stores the data and rewinds; succeeds iff at least 4 bytes; a failure leaves the flag as it was |
| Adpcm.AdpcmDecoder.DecodeNibble | platforms/xbox/XboxAudio.cpp:327-355 | the chosen channel becomes NibbleStep of its old state, the other is untouched, and the returned sample is the new int16 predictor |
| Adpcm.AdpcmDecoder.DecodeByteInto | platforms/xbox/XboxAudio.cpp:298-311 | writes exactly the samples DecodeByte yields at the output position and leaves the states it leaves; the rest of the output is unchanged |
| Adpcm.AdpcmDecoder.DecodeStep | platforms/xbox/XboxAudio.cpp:297-312 | one loop turn advances the cursor by exactly one byte and writes min(room, 2) samples, which is one Advance of the loop state, so the decode ends where it would have; the rest of the output is untouched |
| Adpcm.AdpcmDecoder.Decode | platforms/xbox/XboxAudio.cpp:289-316 | not initialized: fails, no effect; else the output prefix is Run's samples, the rest is untouched, decodedSize is 2 per sample, success iff a sample, the cursor and the states advance as Run says |
| Adpcm.AdpcmDecoder.Reset | platforms/xbox/XboxAudio.cpp:318-325 | rewinds the cursor and zeroes both channels' predictor and step index; data, channel count and flag stay, and the sample rate is a constant set only by the constructor |
| XboxAudio.AudioSystem.constructor | platforms/xbox/XboxAudio.cpp:37-38 | the counter starts at 0 and the budget is 8 MiB |
| XboxAudio.AudioSystem.DecodeADPCM | platforms/xbox/XboxAudio.cpp:115-137 | succeeds iff at least 4 bytes; then yields 4·n bytes (2·n int16 samples, all of the input) equal to the mono decode of the codes, all in range, and adds them to the counter; on failure the counter is unchanged |
| XboxAudio.AudioSystem.OptimizeAudioBuffers | platforms/xbox/XboxAudio.cpp:139-146 | clears the counter exactly when it is above 80% of the budget, so afterwards it is at most 80% |
| XboxAudio.AudioSystem.ClearUnusedAudioBuffers | platforms/xbox/XboxAudio.cpp:148-154 | resets the counter to 0 |
| XboxAudio.AudioSystem.GetAudioMemoryUsage | platforms/xbox/XboxAudio.cpp:156-159 | returns the counter |
| CppScriptEngine.ToLower | gemrb/plugins/CppScript/CppScript.cpp:65-66 | ASCII capitals map to their lower-case letter, every other character to itself |
| CppScriptEngine.Lower | gemrb/plugins/CppScript/CppScript.cpp:65-66 | the lowered module name has no capitals and equals the input ignoring case |
| CppScriptEngine.LowerIdempotent | gemrb/plugins/CppScript/CppScript.cpp:65-66 | lowering a lowered name changes nothing |
| CppScriptEngine.LowerSameIff | gemrb/plugins/CppScript/CppScript.cpp:65-68 | two names reach the same key iff they are equal ignoring case |
| CppScriptEngine.Caught | gemrb/plugins/CppScript/CppScript.cpp:84-91 | a callee's result is passed through; a thrown exception becomes an empty Parameter |
| CppScriptEngine.ClockFunctions | gemrb/plugins/CppScript/CppScript.cpp:103-105 | the clock module holds exactly CreateClockButton and UpdateClock, each under its own name |
| CppScriptEngine.CppScript.constructor | gemrb/plugins/CppScript/CppScript.h:36-37 | a new engine has no modules and is not initialized |
| CppScriptEngine.CppScript.Init | gemrb/plugins/CppScript/CppScript.cpp:31-45 | always succeeds; the first call installs clock, main and guicommon and sets the flag, a second changes nothing |
| CppScriptEngine.CppScript.RegisterClockModule | gemrb/plugins/CppScript/CppScript.cpp:102-108 | installs the clock module with exactly CreateClockButton and UpdateClock |
| CppScriptEngine.CppScript.RegisterMainModule | gemrb/plugins/CppScript/CppScript.cpp:110-115 | installs an empty main module |
| CppScriptEngine.CppScript.RegisterCommonModule | gemrb/plugins/CppScript/CppScript.cpp:117-122 | installs an empty guicommon module |
| CppScriptEngine.CppScript.LoadScript | gemrb/plugins/CppScript/CppScript.cpp:47-52 | always true, no state change |
| CppScriptEngine.CppScript.ExecString | gemrb/plugins/CppScript/CppScript.cpp:94-100 | always false, no state change |
| CppScriptEngine.CppScript.Lookup | gemrb/plugins/CppScript/CppScript.cpp:62-82 | a callable is found iff the lowered module name is a module and the exact function name is in it |
| CppScriptEngine.CppScript.RunFunction | gemrb/plugins/CppScript/CppScript.cpp:54-92 | empty before Init or when nothing is found; otherwise the callee's result, or empty if it threw |
| CppScriptEngine.InitFresh | gemrb/plugins/CppScript/CppScript.cpp:31-122 | Init on a new engine leaves exactly clock {CreateClockButton, UpdateClock}, main {} and guicommon {} |
| CppScriptEngine.CaseInsensitiveModule | gemrb/plugins/CppScript/CppScript.cpp:62-68 | module names equal ignoring case give the same result |
| CppScriptEngine.DefaultDispatch | gemrb/plugins/CppScript/CppScript.cpp:62-122 | with the default table a callable is reached iff the module is "clock" in any case and the function is one of its two names, spelled exactly |
| CppScriptApi.GameDays | gemrb/plugins/CppScript/CppScriptAPI.cpp:95 | the day count d satisfies 7200·d ≤ t < 7200·(d+1) |
| CppScriptApi.HourIndex | gemrb/plugins/CppScript/CppScriptAPI.cpp:96 | the hour index h is below 24 and t lies in the h-th 300-tick slot of its day |
| CppScriptApi.DisplayHour | gemrb/plugins/CppScript/CppScriptAPI.cpp:97 | the shown hour is below 24 and is the hour index moved on by 12 on a 24-hour dial |
| CppScriptApi.StartIsNoon | gemrb/plugins/CppScript/CppScriptAPI.cpp:95-97 | tick 0 is day 0, hour 12 |
| CppScriptApi.NextDay | gemrb/plugins/CppScript/CppScriptAPI.cpp:95-97 | 7200 ticks later the day count is one more and the shown hour the same |
| CppScriptApi.NextHour | gemrb/plugins/CppScript/CppScriptAPI.cpp:96-97 | 300 ticks later the shown hour moves on by one modulo 24; within a day the hour index grows by one and the day stays |
| CppScriptApi.Decimal | gemrb/plugins/CppScript/CppScriptAPI.cpp:99-100 | the token text is a non-empty string of decimal digits without a leading zero |
| CppScriptApi.DecimalRoundTrip | gemrb/plugins/CppScript/CppScriptAPI.cpp:99-100 | reading the decimal text back gives the number |
| CppScriptApi.TokensReadBack | gemrb/plugins/CppScript/CppScriptAPI.cpp:95-100 | the two written tokens read back as the day count and the shown hour |
| CppScriptApi.Interface.GetGameTime | gemrb/plugins/CppScript/CppScriptAPI.cpp:32-38 | the game clock, or 0 with no game loaded |
| CppScriptApi.Interface.SetGamedaysAndHourToken | gemrb/plugins/CppScript/CppScriptAPI.cpp:91-101 | with no game, no token changes; else GAMEDAYS and HOUR are set to the decimal day count and shown hour, other tokens untouched |

## Left out

- Logging everywhere is left out, along with the `report_error` and `feedback` flags that only control it. The ids and bytes a sweep frees are returned instead of logged.
- The clock is not modelled; `now` is a parameter. `tick_t` is taken to be a 64-bit unsigned integer (its declaration is not part of this model).
- Sizes and counters are unbounded `nat`; the 32-bit `size_t` of the console is not modelled. The proved invariant keeps every subtraction non-negative, so no counter wraps below zero. Re-registering a present id leaves the old size counted (ReRegisterOvercounts), so repeated re-registration can push a counter past 2^32, where the source wraps and the model does not.
- GetMemoryInfo's `usagePercent` is a float and is left out. The low and critical tests are integer cross-multiplications. For a 64 MiB total these agree with the float comparisons against 0.15f and 0.05f.
- XboxAudio.AudioSystem.OptimizeAudioBuffers compares `5·used > 4·max` exactly, where the source compares in single-precision float. For the only budget the source uses (8 MiB, never reassigned) the two tests agree: 0.8f times 8388608 is exactly 6710886.5, every count below 2^24 converts to float exactly, and both tests switch at 6710887. The float arithmetic itself is not modelled.
- The `_XBOX` paths (GlobalMemoryStatus, DirectSound) are left out. So are XMA decoding, AllocateTracked/FreeTracked (malloc, and the counter is never decremented), PerformGarbageCollection and PreloadCriticalResources (logging only), and the other XboxAudio stream and sound functions.
- `delete` of the held object in XboxAutoPtr and of the PCM buffer in DecodeADPCM is not modelled, and neither are the `get`/`operator->`/`operator*` accessors. A pointer is an opaque value.
- The manager's static members are fields of one `MemoryManager` object. The `AutoPtr` holds that object instead of calling the statics.
- The iteration order of `std::unordered_map` is any order (`:|`). `std::sort` is an insertion sort that promises only a sorted permutation, as std::sort does.
- XboxMemory.MemoryManager.EvictOldest, EvictAt, CleanupUnusedOfType, Adpcm.AdpcmDecoder.DecodeByteInto and DecodeStep are the bodies of loops in TriggerCleanup, the CleanupUnused* functions and Decode, split out as methods. CleanupUnusedOfType performs the source's inline counter update and erase by calling UnregisterResource, which does the same two steps.
- Adpcm.AdpcmDecoder.Decode: on the not-initialized path the source leaves `*decodedSize` unwritten; the model returns 0 there.
- RegisterResource and Update each read the clock twice in the source: once for the record's timestamp or the interval test, and again inside TriggerCleanup for the threshold. The model takes one `now` for both reads of a call.
- XboxAudio.AudioSystem.DecodeADPCM: on failure the model returns an empty `pcm` and `pcmSize` 0. The source leaves `*pcmData` and `*pcmSize` unwritten when Initialize rejects the input, and deletes the buffer when Decode fails (a path proved unreachable here).
- CppScriptEngine.Lower works on Dafny characters (Unicode scalar values), while `::tolower` works on the bytes of the name. Only ASCII capitals change in either, so the two agree on ASCII names such as the three module names; non-ASCII names are compared by code point here and by UTF-8 byte in the source.
- Adpcm.AdpcmDecoder.Decode writes to an `array<int>` of bufferSize/2 samples, the int16 view of the byte buffer. Byte order and the `reinterpret_cast` are not modelled. Every stored value is proved to fit int16.
- The ADPCM state fields are `int` in the source and unbounded here. No intermediate value comes near the int range.
- The script callables' bodies (ClockScript) are not modelled. A `ModuleFunction` names the callable and a `call` parameter gives its outcome. Only `std::exception` is caught by the source; other exception types are not modelled.
- `Parameter` is reduced to empty or an integer payload, and `FunctionParameters` to a sequence of them.
- CppScriptApi: `GameTime` is unbounded here. For any 32-bit value the day count fits the `int` the source stores it in. `std::to_string` is modelled by `Decimal` for the non-negative values it receives. The other API forwarding wrappers (GamePause, HasResource, GetView, CreateView, GetString, SetToken, GameCheck) are left out.
