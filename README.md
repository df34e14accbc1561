# SolanaSniper pool decoder and monitors in Dafny

This project models the two components of SolanaSniper that carry logic:

- **The Raydium CLMM pool account decoder** (`PoolDataLayout` in
  `src/utils/pool-layout.js`), in modules `LittleEndian` and `PoolLayout`.
  - `decode` reads a fixed-offset record. An 8-byte discriminator is sliced off and never used.
  - It then reads four 32-byte addresses, a little-endian u16 tick spacing, a 32-byte tick-array bitmap, two u128 values, a signed 32-bit tick and four more u128 values.
  - `calculatePrice` squares the Q64 square-root price and divides by 2^128.
  - `formatForLogging` picks five fields for a log line.
- **The monitors** (`PoolMonitor` and `TokenMonitor` in
  `src/services/pool-monitor.js`), in module `PoolMonitorService`.
  - `PoolMonitor` is a class with the fields `isMonitoring`, `subscription` and `retryAttempts`.
  - `getRecentPools` runs a filtered query, then an unfiltered fallback. Failures are retried with linear backoff, up to a lifetime cap of 3 retries. It returns `accounts.slice(-limit)`.
  - `startMonitoring`, `stopMonitoring` and `getStatus` form the subscription lifecycle.
  - `TokenMonitor` keeps a map of watched tokens.

The Solana connection is replaced by oracle parameters:
- a `nat -> QueryOutcome` function answering the n-th `getProgramAccounts` call with accounts or an error and its optional HTTP status;
- the outcome of a subscription setup, a listener removal or a token lookup.

Sleeps are returned as the list of delays they would wait. `Date.now()` is a `now` parameter.

Facts of the code that the model keeps:

- **The layout ends at byte 270.** The last field spans offsets 246 to 262 past the base offset of 8.
- **No length check.** Only `readUInt16LE(136)` and `readInt32LE(202)` are bounds-checked.
  - Below 2 bytes, decoding fails with Node's out-of-bounds error, which names no offset.
  - From 2 to 137 bytes, it fails with an out-of-range error at offset 136.
  - From 138 to 205 bytes, it fails at offset 202.
  - From 206 bytes on, it succeeds. Node's `slice` clamps silently, so a buffer of 206 to 269 bytes decodes its fee fields from truncated slices. `DecodeTruncated` proves this is the same as zero-padding the buffer to 270 bytes.
- **`calculatePrice` can fail.** `BN.toNumber` throws once the integer price reaches 2^53, so the model returns a failure there. Every square-root price below 2^90 succeeds.
- **`slice(-limit)` is modelled exactly:**
  - a positive limit keeps the last `limit` accounts;
  - `limit = 0` keeps all of them, since `-0` is `0`;
  - a negative limit drops the first `-limit` accounts.
- **The subscription handle is tested by truthiness.** A handle of 0 counts as no subscription:
  - `getStatus` reports `hasSubscription` false while `isMonitoring` is true;
  - `stopMonitoring` does nothing.
- **The retry counter is never reset.** A monitor retries at most 3 times in its whole lifetime.
- **`monitorToken` stores the token before subscribing.** If `onAccountChange` throws, the caller sees an error but the token stays watched.
- **`TokenMonitor.stopMonitoring` does not await the removal.** Only a synchronous throw keeps the key.

## Model

| member | source | states |
|---|---|---|
| LittleEndian.Slice | src/utils/pool-layout.js:26-46 | `buf.slice` clamps both bounds to the buffer: the length is the clamped span and each byte is the byte at start + i |
| LittleEndian.ReadUInt16LE | src/utils/pool-layout.js:32 | succeeds iff both bytes exist; the value is `b[o] + 256*b[o+1]`, below 2^16; otherwise out of bounds for a buffer under 2 bytes, else out of range at the offset |
| LittleEndian.ReadInt32LE | src/utils/pool-layout.js:38 | succeeds iff four bytes exist; the value is the signed 32-bit number whose two's-complement pattern is the four LE bytes, in [-2^31, 2^31); otherwise out of bounds for a buffer under 4 bytes, else out of range at the offset |
| LittleEndian.LeUnsigned | src/utils/pool-layout.js:36-37 | the `new BN(bytes, 'le')` value of n bytes is below 256^n |
| LittleEndian.LeUnsignedOfLeBytes | src/utils/pool-layout.js:36-37 | writing a value below 256^n as n LE bytes and reading it back gives the value |
| LittleEndian.LeBytesOfLeUnsigned | src/utils/pool-layout.js:36-37 | reading n bytes and writing the value back as n bytes reproduces them |
| LittleEndian.LeUnsignedZeroPadded | src/utils/pool-layout.js:41-46 | trailing zero bytes do not change an LE value, so a truncated slice reads as if zero-padded |
| LittleEndian.FromTwosComplement32 | src/utils/pool-layout.js:38 | the signed value lies in [-2^31, 2^31) and is congruent to the bit pattern mod 2^32 |
| LittleEndian.ToTwosComplement32 | src/utils/pool-layout.js:38 | the bit pattern is below 2^32 and maps back to the signed value |
| LittleEndian.TwosComplementInverse | src/utils/pool-layout.js:38 | the two maps are inverse on 32-bit patterns |
| LittleEndian.Int32RoundTrip | src/utils/pool-layout.js:38 | reading the four LE bytes of a signed 32-bit value gives the value |
| LittleEndian.ReadExamples | src/utils/pool-layout.js:32-38 | bytes 01 00 read as 1, 00 01 as 256, ff ff ff ff as -1; a u16 read of a 1-byte buffer is out of bounds, one past the end of a 2-byte buffer out of range |
| PoolLayout.U128At | src/utils/pool-layout.js:36-46 | a 16-byte BN field is below 2^128 and, when the span fits, is the LE value of exactly that span |
| PoolLayout.Decode | src/utils/pool-layout.js:15-54 | succeeds iff the buffer has at least 206 bytes; fails out of bounds below 2 bytes, out of range at offset 136 from 2 to 137 bytes and at 202 from 138 to 205; every field of a decoded record fits its width |
| PoolLayout.DecodeFixedSpans | src/utils/pool-layout.js:26-38 | the addresses are bytes 8-40, 40-72, 72-104, 104-136; the tick spacing is `b[136] + 256*b[137]`; the bitmap is bytes 138-170; liquidity and price are the LE values of 170-186 and 186-202; the tick is the signed value of 202-206 |
| PoolLayout.DecodeFeeSpans | src/utils/pool-layout.js:41-46 | with 270 bytes present, the four fee fields are the LE values of bytes 206-222, 222-238, 238-254 and 254-270 |
| PoolLayout.DecodeIgnoresDiscriminator | src/utils/pool-layout.js:17-21 | two buffers that differ only in bytes 0-8 decode to the same result, error included |
| PoolLayout.DecodeIgnoresTail | src/utils/pool-layout.js:24-47 | bytes past 270 never affect the result |
| PoolLayout.DecodeTruncated | src/utils/pool-layout.js:41-46 | a buffer of 206 to 269 bytes decodes as that buffer zero-padded to 270 bytes |
| PoolLayout.DecodeEncode | src/utils/pool-layout.js:24-47 | encoding a well-formed record under the offset table and decoding it gives the record back |
| PoolLayout.EncodeDecode | src/utils/pool-layout.js:24-47 | decoding a 270-byte prefix and re-encoding it with its discriminator gives the same bytes |
| PoolLayout.TickSpacingExamples | src/utils/pool-layout.js:32 | bytes 01 00 at offset 136 give tick spacing 1; bytes 00 01 give 256 |
| PoolLayout.CalculatePrice | src/utils/pool-layout.js:61-64 | succeeds iff the integer price is below 2^53; on success the result is the floor of s^2 / 2^128 |
| PoolLayout.PriceBelowOne | src/utils/pool-layout.js:61-63 | a square-root price below 2^64 gives price 0 |
| PoolLayout.PriceAtOne | src/utils/pool-layout.js:61-63 | square-root price 2^64 gives price 1 |
| PoolLayout.PriceMonotone | src/utils/pool-layout.js:61-63 | the price never decreases as the square-root price grows |
| PoolLayout.CalculatePriceSucceedsBelow | src/utils/pool-layout.js:61-64 | every square-root price below 2^90 converts without error |
| PoolLayout.FormatForLogging | src/utils/pool-layout.js:71-79 | fails exactly when the price conversion fails; otherwise carries the two mints, the liquidity, the current tick and the computed price |
| PoolLayout.LogViewOfBytes | src/utils/pool-layout.js:71-79 | for a decodable buffer with a square-root price below 2^90, the log view is built from the byte spans of the mints, the liquidity, the tick and the price |
| PoolMonitorService.TailSliceIsSuffix | src/services/pool-monitor.js:131 | `slice(-limit)` is a suffix in the original order: the last `limit` for a positive limit, the whole list for 0, all but the first `-limit` for a negative limit |
| PoolMonitorService.FetchCounter | src/services/pool-monitor.js:151-161 | the counter rises by exactly one per retry and never passes MAX_RETRIES |
| PoolMonitorService.FetchDelayAt | src/services/pool-monitor.js:151-159 | retry i follows a pass whose filtered query was empty or failed and whose fallback failed; it waits 2000*n ms after a 429 and 1000*n otherwise, for counter value n |
| PoolMonitorService.FetchQueries | src/services/pool-monitor.js:123-149 | a call makes two queries per retry plus one or two; one extra exactly when the last query was a non-empty filtered one |
| PoolMonitorService.FetchReturned | src/services/pool-monitor.js:129-163 | the result is the tail slice of the last query's accounts; if that query failed, the result is empty and the counter is at the cap |
| PoolMonitorService.FetchFilteredFirst | src/services/pool-monitor.js:124-132 | a non-empty filtered result is returned after one query, without the fallback |
| PoolMonitorService.FetchFallback | src/services/pool-monitor.js:137-149 | an empty or failed filtered query falls through to the unfiltered one, whose accounts are returned |
| PoolMonitorService.FetchAtCap | src/services/pool-monitor.js:160-163 | at the cap a failed pass returns an empty list without sleeping or throwing |
| PoolMonitorService.LifetimeRetries | src/services/pool-monitor.js:151-156 | over any series of calls on one monitor, the retries add up to at most MAX_RETRIES |
| PoolMonitorService.AllPassesFail | src/services/pool-monitor.js:151-163 | when every query fails without a status, a fresh monitor makes 8 queries, sleeps 1000, 2000, 3000 ms and returns an empty list |
| PoolMonitorService.AllPassesRateLimited | src/services/pool-monitor.js:154 | when every query fails with 429, the sleeps are 2000, 4000, 6000 ms |
| PoolMonitorService.PoolMonitor.constructor | src/services/pool-monitor.js:78-87 | a new monitor is not monitoring, holds no subscription and has not retried |
| PoolMonitorService.PoolMonitor.GetRecentPools | src/services/pool-monitor.js:106-164 | the pools, the sleeps and the new counter are those of `Fetch` from the old counter; the counter stays within the cap and monitoring state is untouched |
| PoolMonitorService.PoolMonitor.StartMonitoring | src/services/pool-monitor.js:167-206 | already monitoring: returns true and changes nothing; a successful setup stores the handle and sets monitoring; a throwing setup returns false with monitoring off |
| PoolMonitorService.PoolMonitor.StopMonitoring | src/services/pool-monitor.js:209-221 | without a truthy handle nothing changes; a successful removal clears the handle and monitoring; a failed removal is rethrown with the state unchanged |
| PoolMonitorService.PoolMonitor.GetStatus | src/services/pool-monitor.js:224-231 | changes nothing; echoes monitoring and the counter; `hasSubscription` is the handle's truthiness, so it equals monitoring except for handle 0; connected iff a connection exists |
| PoolMonitorService.NewMonitorStatus | src/tests/pool-monitor.test.js:34-37 | a fresh monitor reports not monitoring, no subscription and no retries |
| PoolMonitorService.StartTwice | src/services/pool-monitor.js:169-172 | after a successful start, a second start returns true and the status is identical |
| PoolMonitorService.StopTwice | src/services/pool-monitor.js:211-216 | stopping twice after a start with a non-zero handle ends not monitoring; with handle 0 the monitor keeps reporting that it is monitoring |
| PoolMonitorService.TokenMonitor.constructor | src/services/pool-monitor.js:9-12 | a new token monitor watches nothing |
| PoolMonitorService.TokenMonitor.MonitorToken | src/services/pool-monitor.js:15-48 | succeeds iff the account exists, has a parsed supply and the subscription returns an id, which is returned; a missing account gives 'Token not found', a throwing lookup or unparsed supply `LookupFailed`, a throwing `onAccountChange` `SubscribeFailed`; the token is stored with its supply and `now` iff the lookup got that far; otherwise the map is unchanged |
| PoolMonitorService.TokenMonitor.HandleTokenUpdate | src/services/pool-monitor.js:51-62 | a watched token gets `lastUpdate = now` and nothing else changes, so its entry stays its own address, supply and the new time; an unknown address is ignored |
| PoolMonitorService.TokenMonitor.StopMonitoring | src/services/pool-monitor.js:65-73 | deletes exactly that key; a synchronous throw is swallowed and the map is unchanged |
| PoolMonitorService.WatchUpdateStop | src/services/pool-monitor.js:15-73 | watch, update and stop: the update changes only the timestamp, and afterwards the token is no longer watched |
| PoolMonitorService.SubscribeThrows | src/services/pool-monitor.js:29-46 | a throwing `onAccountChange` is reported as `SubscribeFailed` while the token stays stored |

## Left out

- `withTimeout` (`Promise.race` against a 30 s timer) is not modelled. A timed-out query is a `Failed` outcome with no status. `TIMEOUT_MS` is kept as a constant only.
- Sleeps and `Date.now()`: delays are returned, not waited, and the current time is a parameter.
- The Solana connection (`getProgramAccounts`, `onProgramAccountChange`, `removeAccountChangeListener`, `onAccountChange`, `getParsedAccountInfo`) is foreign network I/O. Its answers are oracle parameters.
- The query configurations (`dataSize` 1440 filter, commitment, encoding) and `RAYDIUM_PROGRAM_ID` only shape what the oracle answers. `POOL_ACCOUNT_SIZE` is kept as a constant.
- `PublicKey` and `BN` objects: addresses stay as raw bytes and big numbers as integers. Base-58 and decimal `toString` in `formatForLogging` are not modelled.
- The `startMonitoring` notification callback only logs and is not modelled.
- `getPoolMonitorConnection` and `getConnection` failures (missing environment variables) are not modelled. The constructor takes whether a connection exists.
- PoolMonitorService.PoolMonitor.GetRecentPools: the default `limit = 5` is not modelled; callers always pass a limit. The extra `calls` parameter numbers the oracle's answers.
- Concurrent, interleaved calls to one monitor are not modelled: each method runs to completion.
- Logging (`logger`) is not modelled.
- PoolMonitorService.TokenMonitor.StopMonitoring: the promise of `removeAccountChangeListener` is not awaited. If it later rejects, Node reports an unhandled rejection, which by default ends the process; that process-level effect is not modelled.
- The assertions of `src/tests/pool-monitor.test.js` on `POOL_SIZE` (2208) and `knownPools` are not modelled: the monitor class has no such members.
- `src/services/token-monitor.js`, `wallet.js`, `helius.js`, `src/index.js`, `src/config/network.js` and `src/services/test.js` are not part of this model.
