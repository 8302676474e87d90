# bUwUdzik core logic in Dafny

This project models the plain logic inside the bUwUdzik Android app, which
reads a Qingping BLE sensor/clock. Four pieces are modelled:

- **TokenStorage**: the per-device authentication token store. A token is
  kept in the "qingping_tokens" shared preferences under the key
  `token_<mac lowercased, ':' replaced by '_'>` as lowercase hex. The
  preferences are the field `prefs: map<string, string>` of the class
  `TokenStorage.TokenStorage`. `storeToken`, `generateAndStoreToken` and
  `removeToken` are methods that change that field. `getToken`, `isPaired`
  and `getPairedDevices` are functions that read it. Hex encoding and
  decoding are in module `HexCodec`. The Kotlin string operations used for
  the key are in module `Text`.
- **BluetoothUtils.rssiToPercentage**: the clamped linear map from dBm to a
  percentage (module `BluetoothUtils`).
- **MainActivity**: `scheduleUpdates`, the `MainViewModel` scan controller,
  the dashboard's inline signal percentage, the onCreate theme `when` and
  the start destination (module `MainActivity`). AlarmManager and
  WorkManager are one class, `BackgroundSchedulers`. It holds the app's
  repeating alarm, the unique periodic work by name, and the list of calls it
  received. `Apply` gives the effect of one call. `ScheduleCalls` is the
  call sequence `scheduleUpdates` issues.
- **ThemeUtils.themeToNightMode**: theme name to AppCompatDelegate night mode
  (module `ThemeUtils`). The theme picker in SettingsScreen repeats the same
  mapping inline (module `SettingsScreen`).

Bytes are modelled as their unsigned bit pattern 0..255. Kotlin's `Byte` is
signed, but `"%02x"` prints that bit pattern and `toByte()` keeps the low
eight bits (`ToByte` is `v % 256`). `System.currentTimeMillis()` is the
parameter `now`. The 16 bytes from SecureRandom are the parameter `random`.
The app's settings (target MAC, scan mode) are parameters of the scan
methods.

## Behaviour worth noting

- `generateAndStoreToken` overwrites an existing token without asking
  (app/src/main/java/com/mrboombastic/buwudzik/TokenStorage.kt:47).
- The periodic work for intervals of 15 minutes or more is built with the
  repeat interval only. No flex window and no initial delay are set
  (app/src/main/java/com/mrboombastic/buwudzik/MainActivity.kt:151-153).
- A stored value that does not parse makes `getToken` return null. The
  entry is not removed, so `isPaired` stays true
  (app/src/main/java/com/mrboombastic/buwudzik/TokenStorage.kt:29-35).

## Model

| member | source | states |
|---|---|---|
| Text.Lower | app/src/main/java/com/mrboombastic/buwudzik/TokenStorage.kt:94 | `lowercase()` keeps the length and lowers each ASCII letter, position by position |
| Text.Upper | app/src/main/java/com/mrboombastic/buwudzik/TokenStorage.kt:89 | `uppercase()` keeps the length and raises each ASCII letter, position by position |
| Text.Replace | app/src/main/java/com/mrboombastic/buwudzik/TokenStorage.kt:89-94 | `replace` of one character keeps the length, changes each occurrence and keeps every other character |
| Text.LowerEqualIff | app/src/main/java/com/mrboombastic/buwudzik/TokenStorage.kt:94 | two addresses lower to the same string exactly when they agree up to case |
| Text.UpperOfLower | app/src/main/java/com/mrboombastic/buwudzik/TokenStorage.kt:89-94 | helper: upper-casing a lowered address gives the upper-cased address |
| Text.ReplaceBack | app/src/main/java/com/mrboombastic/buwudzik/TokenStorage.kt:89-94 | helper: replacing ':' by '_' is undone by replacing '_' by ':' when the string had no '_' |
| HexCodec.ByteToHex | app/src/main/java/com/mrboombastic/buwudzik/TokenStorage.kt:98 | `"%02x"` gives exactly two lowercase hex digits per byte |
| HexCodec.BytesToHex | app/src/main/java/com/mrboombastic/buwudzik/TokenStorage.kt:97-99 | the hex string has 2 characters per byte, all lowercase hex digits |
| HexCodec.HexLiteral | app/src/main/java/com/mrboombastic/buwudzik/TokenStorage.kt:102 | the literal `toInt(16)` reads is valid exactly when it is a non-empty string of hex digits, or '+' or '-' followed by at least one hex digit; a lone sign is invalid. A value after '-' is at most 0, any other is at least 0 |
| HexCodec.ParseHexInt | app/src/main/java/com/mrboombastic/buwudzik/TokenStorage.kt:102 | `toInt(16)` succeeds exactly on a valid hex literal whose value fits in a 32-bit `Int`, and then returns that value. On strings of at most two characters, the chunks `hexToBytes` passes, the `Int` bound never rejects anything |
| HexCodec.ToByte | app/src/main/java/com/mrboombastic/buwudzik/TokenStorage.kt:102 | `toByte()` gives a value congruent to its input modulo 256, and keeps values that are already in 0..255 |
| HexCodec.HexToBytes | app/src/main/java/com/mrboombastic/buwudzik/TokenStorage.kt:101-103 | decoding yields one byte per two characters, rounding up for an odd last chunk |
| HexCodec.ByteRoundTrip | app/src/main/java/com/mrboombastic/buwudzik/TokenStorage.kt:97-103 | a formatted byte parses back to itself |
| HexCodec.HexRoundTrip | app/src/main/java/com/mrboombastic/buwudzik/TokenStorage.kt:97-103 | `hexToBytes(bytesToHex(b)) == b` for every byte sequence |
| HexCodec.ChunkRoundTrip | app/src/main/java/com/mrboombastic/buwudzik/TokenStorage.kt:97-103 | two lowercase hex digits parse to a byte that formats back to the same two digits |
| HexCodec.LowerHexRoundTrip | app/src/main/java/com/mrboombastic/buwudzik/TokenStorage.kt:97-103 | every even-length lowercase hex string decodes, and re-encoding gives the same string |
| HexCodec.ParseQuirks | app/src/main/java/com/mrboombastic/buwudzik/TokenStorage.kt:101-103 | "zz" fails; "-1" and "FF" both decode to byte 0xff; odd-length "abc" decodes to 0xab, 0x0c |
| HexCodec.ParseDigits | app/src/main/java/com/mrboombastic/buwudzik/TokenStorage.kt:102 | the digit part of `toInt(16)` succeeds exactly when every character is a hex digit, and n digits give a value below 16^n |
| HexCodec.ParseDigitsSnoc | app/src/main/java/com/mrboombastic/buwudzik/TokenStorage.kt:102 | helper: one more digit multiplies the value by 16 and adds the digit |
| HexCodec.MaxIntDigits | app/src/main/java/com/mrboombastic/buwudzik/TokenStorage.kt:102 | helper: "7fffffff" has the digit value 2^31 - 1 |
| HexCodec.MinIntDigits | app/src/main/java/com/mrboombastic/buwudzik/TokenStorage.kt:102 | helper: "80000000" has the digit value 2^31 |
| HexCodec.IntRangeEdges | app/src/main/java/com/mrboombastic/buwudzik/TokenStorage.kt:102 | `toInt(16)` accepts "7fffffff" and "-80000000", the `Int` extremes, and rejects "80000000" as out of range |
| HexCodec.NonHexChunk | app/src/main/java/com/mrboombastic/buwudzik/TokenStorage.kt:102 | helper: a one- or two-character chunk holding a character that is neither a hex digit nor a sign does not parse |
| HexCodec.NonHexCharFails | app/src/main/java/com/mrboombastic/buwudzik/TokenStorage.kt:101-103 | `hexToBytes` fails on every string with a character that is neither a hex digit nor a sign, wherever it sits |
| TokenStorage.MacAddressToKey | app/src/main/java/com/mrboombastic/buwudzik/TokenStorage.kt:92-95 | the key is "token_" followed by one character per address character, with no ':' and no upper-case letter |
| TokenStorage.DeviceOfKey | app/src/main/java/com/mrboombastic/buwudzik/TokenStorage.kt:89 | the address reported for a key is as long as the key without "token_", with no '_' and no lower-case letter; `KeyOfDeviceOfKey` is its inverse on stored keys |
| TokenStorage.KeyOfDeviceOfKey | app/src/main/java/com/mrboombastic/buwudzik/TokenStorage.kt:86-95 | for every key the store can write, mangling the address `getPairedDevices` reports for it gives back the key |
| TokenStorage.DeviceOfMacKey | app/src/main/java/com/mrboombastic/buwudzik/TokenStorage.kt:86-95 | an address without '_' is reported by `getPairedDevices` as its upper-case form |
| TokenStorage.SameKeyIff | app/src/main/java/com/mrboombastic/buwudzik/TokenStorage.kt:92-95 | for addresses without '_', two addresses share a key exactly when they are equal up to letter case |
| TokenStorage.ColonUnderscoreCollide | app/src/main/java/com/mrboombastic/buwudzik/TokenStorage.kt:92-95 | "aa:bb" and "AA_BB" map to the same key, because ':' and '_' collide |
| TokenStorage.TokenStorage.constructor | app/src/main/java/com/mrboombastic/buwudzik/TokenStorage.kt:21 | the store opens over whatever the preferences already hold |
| TokenStorage.TokenStorage.GetToken | app/src/main/java/com/mrboombastic/buwudzik/TokenStorage.kt:27-36 | a token is returned only for a paired device, and its length is half the stored string's, rounded up |
| TokenStorage.TokenStorage.IsPaired | app/src/main/java/com/mrboombastic/buwudzik/TokenStorage.kt:69-72 | a paired device's key yields an address listed by `getPairedDevices`; `ConsistentPairedHasToken` ties it to `getToken` and `CorruptValueIsPairedWithoutToken` shows it holds without a token |
| TokenStorage.TokenStorage.GetPairedDevices | app/src/main/java/com/mrboombastic/buwudzik/TokenStorage.kt:86-90 | every listed address has no '_' and no lower-case letter; `PairedDeviceListed` and `ListedDeviceIsPaired` relate the list to `isPaired` both ways |
| TokenStorage.TokenStorage.GenerateAndStoreToken | app/src/main/java/com/mrboombastic/buwudzik/TokenStorage.kt:41-51 | returns the 16 random bytes and overwrites the device's entry with their hex. Afterwards the device is paired and `getToken` returns exactly that token. No other device changes, and store consistency is kept |
| TokenStorage.TokenStorage.StoreToken | app/src/main/java/com/mrboombastic/buwudzik/TokenStorage.kt:56-64 | a length other than 16 fails and changes nothing. A 16-byte token is stored as 32 hex characters and `getToken` then returns exactly it. No other device changes |
| TokenStorage.TokenStorage.RemoveToken | app/src/main/java/com/mrboombastic/buwudzik/TokenStorage.kt:77-81 | only the device's key is removed. Afterwards `isPaired` is false and `getToken` is null, and other devices are unchanged |
| TokenStorage.CaseInsensitiveLookup | app/src/main/java/com/mrboombastic/buwudzik/TokenStorage.kt:27-72 | addresses that differ only in case agree on `isPaired` and `getToken` |
| TokenStorage.StoredTokenReadsBack | app/src/main/java/com/mrboombastic/buwudzik/TokenStorage.kt:27-36 | an entry in the written format reads back as a 16-byte token that re-encodes to the entry |
| TokenStorage.ConsistentPairedHasToken | app/src/main/java/com/mrboombastic/buwudzik/TokenStorage.kt:27-72 | in a consistent store, `isPaired` holds exactly when `getToken` returns a token, and that token has 16 bytes |
| TokenStorage.CorruptValueIsPairedWithoutToken | app/src/main/java/com/mrboombastic/buwudzik/TokenStorage.kt:27-72 | an entry holding any character that is neither a hex digit nor a sign leaves `isPaired` true while `getToken` returns null without failing |
| TokenStorage.PairedDeviceListed | app/src/main/java/com/mrboombastic/buwudzik/TokenStorage.kt:86-90 | a paired address without '_' appears, upper-cased, in `getPairedDevices` |
| TokenStorage.ListedDeviceIsPaired | app/src/main/java/com/mrboombastic/buwudzik/TokenStorage.kt:86-90 | in a consistent store, every address `getPairedDevices` lists is paired and has a token |
| BluetoothUtils.RssiToPercentage | app/src/main/java/com/mrboombastic/buwudzik/ui/utils/BluetoothUtils.kt:43-47 | the result is in 0..100. It is 100 exactly when rssi >= -35 and 0 exactly when rssi <= -100. Strictly between, it is in 1..98 |
| BluetoothUtils.LinearRange | app/src/main/java/com/mrboombastic/buwudzik/ui/utils/BluetoothUtils.kt:46 | in the linear range the result is the truncated quotient `((rssi+100)*100)/65` |
| BluetoothUtils.DivMonotone | app/src/main/java/com/mrboombastic/buwudzik/ui/utils/BluetoothUtils.kt:46 | helper: integer division by 65 is monotone on non-negative numbers |
| BluetoothUtils.RssiToPercentageMonotone | app/src/main/java/com/mrboombastic/buwudzik/ui/utils/BluetoothUtils.kt:43-47 | a stronger signal never gives a lower percentage |
| ThemeUtils.ThemeToNightMode | app/src/main/java/com/mrboombastic/buwudzik/ui/utils/ThemeUtils.kt:13-17 | the result is one of the three night-mode constants. It is MODE_NIGHT_NO exactly for "light" and MODE_NIGHT_YES exactly for "dark" |
| ThemeUtils.OtherThemesFollowSystem | app/src/main/java/com/mrboombastic/buwudzik/ui/utils/ThemeUtils.kt:13-17 | "system", "", "Light" and "DARK" all follow the system |
| SettingsScreen.PickedNightMode | app/src/main/java/com/mrboombastic/buwudzik/SettingsScreen.kt:384-388 | the theme picker's inline mapping equals `themeToNightMode` for every string |
| MainActivity.StartupNightMode | app/src/main/java/com/mrboombastic/buwudzik/MainActivity.kt:178-182 | onCreate's inline mapping equals `themeToNightMode` for every string |
| MainActivity.ApplyAllThree | app/src/main/java/com/mrboombastic/buwudzik/MainActivity.kt:136-158 | helper: three scheduler calls take effect one after another |
| MainActivity.Apply | app/src/main/java/com/mrboombastic/buwudzik/MainActivity.kt:137-157 | a cancel removes the alarm or the work of that name; setting an alarm or enqueueing work installs it, replacing what was there. Each call touches only its own scheduler, and a work call only its own name |
| MainActivity.ScheduleCalls | app/src/main/java/com/mrboombastic/buwudzik/MainActivity.kt:137-157 | `scheduleUpdates` makes three calls: both cancellations first, then exactly one installation, which is the repeating alarm exactly when the interval is below 15 minutes. `ScheduleInstallsExactlyOne` and `ScheduleIdempotent` state the resulting scheduler state |
| MainActivity.ScheduleInstallsExactlyOne | app/src/main/java/com/mrboombastic/buwudzik/MainActivity.kt:136-158 | afterwards an alarm is set exactly when the interval is below 15 minutes, with period interval*60000 ms and first trigger now + period. "SensorUpdateWork" is enqueued exactly when the interval is 15 or more, with that interval in minutes. Other unique work is untouched |
| MainActivity.ScheduleReplacesPrevious | app/src/main/java/com/mrboombastic/buwudzik/MainActivity.kt:136-158 | the result does not depend on which mechanism was installed before |
| MainActivity.ScheduleIdempotent | app/src/main/java/com/mrboombastic/buwudzik/MainActivity.kt:136-158 | scheduling twice with the same interval and clock leaves the same state as scheduling once |
| MainActivity.BackgroundSchedulers.constructor | app/src/main/java/com/mrboombastic/buwudzik/MainActivity.kt:126-127 | the schedulers start from a given state, having received no calls |
| MainActivity.BackgroundSchedulers.Receive | app/src/main/java/com/mrboombastic/buwudzik/MainActivity.kt:137-157 | each platform call changes the state as `Apply` says and is recorded |
| MainActivity.ScheduleUpdates | app/src/main/java/com/mrboombastic/buwudzik/MainActivity.kt:125-159 | issues exactly `ScheduleCalls` in order: cancel the work, cancel the alarm, install one. It leaves one mechanism, chosen by the 15-minute threshold |
| MainActivity.MainViewModel.constructor | app/src/main/java/com/mrboombastic/buwudzik/MainActivity.kt:77-80 | no reading and no scan job at start |
| MainActivity.MainViewModel.StartScanning | app/src/main/java/com/mrboombastic/buwudzik/MainActivity.kt:82-97 | does nothing while a job is active. Otherwise it launches a new active job with the given target and mode, leaving the reading as it was |
| MainActivity.MainViewModel.RestartScanning | app/src/main/java/com/mrboombastic/buwudzik/MainActivity.kt:99-105 | cancels the current job, clears the reading and launches a new active job |
| MainActivity.MainViewModel.OnScanData | app/src/main/java/com/mrboombastic/buwudzik/MainActivity.kt:92-95 | a reading from the running job replaces `sensorData`. A reading from any other job is ignored. The view model's job bookkeeping stays valid |
| MainActivity.MainViewModel.Collect | app/src/main/java/com/mrboombastic/buwudzik/MainActivity.kt:91-96 | after a run of readings from the running job, `sensorData` is the last one. The view model's job bookkeeping stays valid |
| MainActivity.MainViewModel.OnScanJobCompleted | app/src/main/java/com/mrboombastic/buwudzik/MainActivity.kt:91-96 | when the flow ends, the job is no longer active, so a later start launches a new one |
| MainActivity.SignalPercentage | app/src/main/java/com/mrboombastic/buwudzik/MainActivity.kt:330-334 | the dashboard's inline computation equals `rssiToPercentage` for every rssi |
| MainActivity.StartDestination | app/src/main/java/com/mrboombastic/buwudzik/MainActivity.kt:198 | the start route is "home" exactly when setup is completed, and "setup" otherwise |

## Left out

- Text.Lower: Kotlin's `lowercase()` and `uppercase()` use full Unicode case mapping. The model maps ASCII letters only.
- HexCodec.DigitValue: on the JVM, `Character.digit` also accepts non-ASCII decimal digits and full-width letters. The model accepts only ASCII hex digits.
- SharedPreferences entries that are not strings are not modelled. `getString` would throw ClassCastException outside the `try`.
- SharedPreferences `apply()` asynchrony and persistence to disk are not modelled. A write takes effect at once.
- TokenStorage.TokenStorage.GetPairedDevices: returns a set. The Kotlin list follows the unspecified order of the preferences' key set.
- `Log` calls are left out. In this app they only log.
- MainActivity.ScheduleUpdates: Long arithmetic is unbounded. `intervalMinutes * 60 * 1000` and `now + intervalMillis` do not wrap at 64 bits, which only matters for absurd intervals.
- What AlarmManager and WorkManager do once a mechanism is installed (firing, inexact timing, WorkManager's own minimum interval) is not modelled.
- The scan flow (`scanner.scan`) is not modelled. Readings arrive as the events `OnScanData` and `Collect`. `isBluetoothEnabled` and `hasBluetoothPermissions` query the platform and are not modelled.
- SensorData's temperature and humidity are Doubles. They are not modelled, and neither is the dashboard's text formatting.
- `applyTheme`, the locale setup in onCreate and all Compose UI are platform calls and are left out.
- SettingsScreen's other logic is not modelled. That covers the MAC trim-or-default and restarting the scan when the MAC or scan mode changed. SensorWidget, the broadcast receivers, AppLogger and BackNavigationButton are glue or UI and are not part of this model.
