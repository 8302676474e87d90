/**
 * Per-device authentication tokens kept in the "qingping_tokens" shared
 * preferences: one string entry per device, keyed by the mangled MAC address,
 * holding the 16-byte token as lowercase hex.
 */
module TokenStorage {
  import opened Wrappers
  import opened Text
  import opened HexCodec

  const TokenSize: nat := 16
  const KeyPrefix: string := "token_"

  predicate HasKeyPrefix(key: string)
  {
    |key| >= |KeyPrefix| && key[..|KeyPrefix|] == KeyPrefix
  }

  /** The keys `macAddressToKey` can produce: the prefix, then no ':' and no upper-case letter. */
  predicate IsTokenKey(key: string)
  {
    HasKeyPrefix(key) && forall i :: |KeyPrefix| <= i < |key| ==> key[i] != ':' && !IsUpperAscii(key[i])
  }

  /** A preference value as `storeToken` writes it: 32 lowercase hex digits. */
  predicate IsStoredToken(value: string)
  {
    |value| == 2 * TokenSize && IsLowerHex(value)
  }

  /** `macAddressToKey`: "58:2D:34:50:A0:81" becomes "token_58_2d_34_50_a0_81". */
  function MacAddressToKey(mac: string): (key: string)
    ensures |key| == |KeyPrefix| + |mac|
    ensures IsTokenKey(key)
  {
    KeyPrefix + Replace(Lower(mac), ':', '_')
  }

  /**
   * The address `getPairedDevices` reports for one stored key: as long as
   * the key without its prefix, with no '_' and no lower-case letter left.
   */
  function DeviceOfKey(key: string): (device: string)
    requires HasKeyPrefix(key)
    ensures |device| == |key| - |KeyPrefix|
    ensures forall i :: 0 <= i < |device| ==> device[i] != '_' && !IsLowerAscii(device[i])
  {
    Upper(Replace(key[|KeyPrefix|..], '_', ':'))
  }

  /** One character of a stored key survives the trip to the reported address and back. */
  lemma KeyCharRoundTrip(c: char)
    requires c != ':' && !IsUpperAscii(c)
    ensures var shown := UpperChar(if c == '_' then ':' else c);
      (if LowerChar(shown) == ':' then '_' else LowerChar(shown)) == c
  {
  }

  /** Every key the store writes is recovered from the address reported for it. */
  lemma KeyOfDeviceOfKey(key: string)
    requires IsTokenKey(key)
    ensures MacAddressToKey(DeviceOfKey(key)) == key
  {
    var suffix := key[|KeyPrefix|..];
    var mangled := Replace(Lower(DeviceOfKey(key)), ':', '_');
    forall i | 0 <= i < |suffix|
      ensures mangled[i] == suffix[i]
    {
      KeyCharRoundTrip(suffix[i]);
    }
    assert mangled == suffix;
    assert key == KeyPrefix + suffix;
  }

  /** An address without '_' is listed as its upper-case form. */
  lemma DeviceOfMacKey(mac: string)
    requires forall i :: 0 <= i < |mac| ==> mac[i] != '_'
    ensures DeviceOfKey(MacAddressToKey(mac)) == Upper(mac)
  {
    var lowered := Lower(mac);
    assert MacAddressToKey(mac)[|KeyPrefix|..] == Replace(lowered, ':', '_');
    ReplaceBack(lowered, ':', '_');
    UpperOfLower(mac);
  }

  /** For addresses without '_', two addresses share a key exactly when they agree up to case. */
  lemma SameKeyIff(a: string, b: string)
    requires forall i :: 0 <= i < |a| ==> a[i] != '_'
    requires forall i :: 0 <= i < |b| ==> b[i] != '_'
    ensures MacAddressToKey(a) == MacAddressToKey(b) <==> EqualIgnoringCase(a, b)
  {
    LowerEqualIff(a, b);
    if MacAddressToKey(a) == MacAddressToKey(b) {
      var ka, kb := MacAddressToKey(a), MacAddressToKey(b);
      forall i | 0 <= i < |a|
        ensures LowerChar(a[i]) == LowerChar(b[i])
      {
        assert ka[|KeyPrefix| + i] == kb[|KeyPrefix| + i];
      }
    }
  }

  /** Without that restriction ':' and '_' collide: two different addresses share a key. */
  lemma ColonUnderscoreCollide()
    ensures MacAddressToKey("aa:bb") == MacAddressToKey("AA_BB")
  {
    var a, b := MacAddressToKey("aa:bb"), MacAddressToKey("AA_BB");
    assert a == "token_aa_bb";
    assert b == "token_aa_bb";
  }

  /** The outcome of `storeToken`; the Kotlin `require` throws IllegalArgumentException. */
  datatype StoreResult = Stored | InvalidTokenLength

  class TokenStorage {
    /** The shared preferences: key to string value. */
    var prefs: map<string, string>

    /** Opens the store over whatever the preferences file holds. */
    constructor (persisted: map<string, string>)
      ensures prefs == persisted
    {
      prefs := persisted;
    }

    /** Every entry has the shape this class writes. */
    predicate Consistent()
      reads this
    {
      forall key :: key in prefs ==> IsTokenKey(key) && IsStoredToken(prefs[key])
    }

    /** `isPaired`: the key exists, whatever its value. */
    predicate IsPaired(mac: string)
      reads this
      ensures IsPaired(mac) ==> DeviceOfKey(MacAddressToKey(mac)) in GetPairedDevices()
    {
      MacAddressToKey(mac) in prefs
    }

    /** `getToken`: null when the key is missing or its value does not parse. */
    function GetToken(mac: string): (token: Option<seq<Byte>>)
      reads this
      ensures token.Some? ==> IsPaired(mac)
      ensures token.Some? ==> |token.value| == (|prefs[MacAddressToKey(mac)]| + 1) / 2
    {
      var key := MacAddressToKey(mac);
      if key in prefs then HexToBytes(prefs[key]) else None
    }

    /** `getPairedDevices`, as a set: the list order follows the preferences' key set. */
    function GetPairedDevices(): (devices: set<string>)
      reads this
      ensures forall device :: device in devices ==>
        forall i :: 0 <= i < |device| ==> device[i] != '_' && !IsLowerAscii(device[i])
    {
      set key | key in prefs && HasKeyPrefix(key) :: DeviceOfKey(key)
    }

    /** `generateAndStoreToken`, with `random` the 16 bytes SecureRandom fills the token with. */
    method GenerateAndStoreToken(mac: string, random: seq<Byte>) returns (token: seq<Byte>)
      requires |random| == TokenSize
      modifies this
      ensures token == random
      ensures prefs == old(prefs)[MacAddressToKey(mac) := BytesToHex(token)]
      ensures IsPaired(mac) && GetToken(mac) == Some(token)
      ensures |prefs[MacAddressToKey(mac)]| == 2 * TokenSize
      ensures forall other :: MacAddressToKey(other) != MacAddressToKey(mac) ==>
        IsPaired(other) == old(IsPaired(other)) && GetToken(other) == old(GetToken(other))
      ensures old(Consistent()) ==> Consistent()
    {
      token := random;
      var key := MacAddressToKey(mac);
      var tokenHex := BytesToHex(token);
      prefs := prefs[key := tokenHex];
      HexRoundTrip(token);
    }

    /** `storeToken`: refuses a token of any length but 16 and then changes nothing. */
    method StoreToken(mac: string, token: seq<Byte>) returns (result: StoreResult)
      modifies this
      ensures result == (if |token| == TokenSize then Stored else InvalidTokenLength)
      ensures result == InvalidTokenLength ==> prefs == old(prefs)
      ensures result == Stored ==> prefs == old(prefs)[MacAddressToKey(mac) := BytesToHex(token)]
      ensures result == Stored ==> IsPaired(mac) && GetToken(mac) == Some(token)
      ensures forall other :: MacAddressToKey(other) != MacAddressToKey(mac) ==>
        IsPaired(other) == old(IsPaired(other)) && GetToken(other) == old(GetToken(other))
      ensures old(Consistent()) ==> Consistent()
    {
      if |token| != TokenSize {
        return InvalidTokenLength;
      }
      var key := MacAddressToKey(mac);
      var tokenHex := BytesToHex(token);
      prefs := prefs[key := tokenHex];
      HexRoundTrip(token);
      result := Stored;
    }

    /** `removeToken`: the device is unpaired and nothing else changes. */
    method RemoveToken(mac: string)
      modifies this
      ensures prefs == old(prefs) - {MacAddressToKey(mac)}
      ensures !IsPaired(mac) && GetToken(mac) == None
      ensures forall other :: MacAddressToKey(other) != MacAddressToKey(mac) ==>
        IsPaired(other) == old(IsPaired(other)) && GetToken(other) == old(GetToken(other))
      ensures old(Consistent()) ==> Consistent()
    {
      var key := MacAddressToKey(mac);
      prefs := prefs - {key};
    }
  }

  /** Addresses that differ only in letter case see the same entry. */
  lemma CaseInsensitiveLookup(store: TokenStorage, a: string, b: string)
    requires EqualIgnoringCase(a, b)
    ensures store.IsPaired(a) == store.IsPaired(b)
    ensures store.GetToken(a) == store.GetToken(b)
  {
    LowerEqualIff(a, b);
  }

  /** A value written by `storeToken` reads back as a 16-byte token that encodes to it. */
  lemma StoredTokenReadsBack(store: TokenStorage, mac: string)
    requires store.IsPaired(mac) && IsStoredToken(store.prefs[MacAddressToKey(mac)])
    ensures store.GetToken(mac).Some?
    ensures |store.GetToken(mac).value| == TokenSize
    ensures BytesToHex(store.GetToken(mac).value) == store.prefs[MacAddressToKey(mac)]
  {
    LowerHexRoundTrip(store.prefs[MacAddressToKey(mac)]);
  }

  /** In a consistent store, being paired and having a readable 16-byte token coincide. */
  lemma ConsistentPairedHasToken(store: TokenStorage, mac: string)
    requires store.Consistent()
    ensures store.IsPaired(mac) <==> store.GetToken(mac).Some?
    ensures store.GetToken(mac).Some? ==> |store.GetToken(mac).value| == TokenSize
  {
    if store.IsPaired(mac) {
      StoredTokenReadsBack(store, mac);
    }
  }

  /**
   * A stored value holding any character that is neither a hex digit nor a
   * sign leaves the device paired but without a token, and nothing fails.
   */
  lemma CorruptValueIsPairedWithoutToken(store: TokenStorage, mac: string, i: int)
    requires MacAddressToKey(mac) in store.prefs
    requires var value := store.prefs[MacAddressToKey(mac)];
      0 <= i < |value| && DigitValue(value[i]).None? && value[i] != '+' && value[i] != '-'
    ensures store.IsPaired(mac) && store.GetToken(mac) == None
  {
    NonHexCharFails(store.prefs[MacAddressToKey(mac)], i);
  }

  /** A paired address without '_' is listed, upper-cased. */
  lemma PairedDeviceListed(store: TokenStorage, mac: string)
    requires forall i :: 0 <= i < |mac| ==> mac[i] != '_'
    requires store.IsPaired(mac)
    ensures Upper(mac) in store.GetPairedDevices()
  {
    DeviceOfMacKey(mac);
  }

  /** In a consistent store every listed address is paired and has a token. */
  lemma ListedDeviceIsPaired(store: TokenStorage, device: string)
    requires store.Consistent()
    requires device in store.GetPairedDevices()
    ensures store.IsPaired(device) && store.GetToken(device).Some?
  {
    var key :| key in store.prefs && HasKeyPrefix(key) && device == DeviceOfKey(key);
    KeyOfDeviceOfKey(key);
    ConsistentPairedHasToken(store, device);
  }
}
