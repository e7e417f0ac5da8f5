/**
 * The persistent configuration (`RidenConfig`): the timezone name and the
 * "open the config portal on next boot" flag, stored at offset 0 of the
 * emulated EEPROM as a fixed V1 record:
 *
 *   offset 0    3 bytes   magic "RD" with its terminating NUL
 *   offset 3    1 byte    config version, 1
 *   offset 4  100 bytes   tz_name, a NUL-terminated C string
 *   offset 104  1 byte    config_portal_on_boot
 *
 * The EEPROM is a RAM image (`cache`, what `get`/`put` use) and the flash
 * copy behind it (`flash`, what `EEPROM.begin` loads and `EEPROM.commit`
 * writes); whether a flash write succeeds is an oracle. The bytes of the
 * tz_name field after its NUL come from an uninitialised stack record in
 * `commit`; they are a parameter (`junk`) here.
 */
module RidenConfig {
  import opened Arduino

  type byte = uint8

  /** `MAGIC` as `memcpy(..., MAGIC, sizeof(MAGIC))` copies it: 'R', 'D', NUL. */
  const Magic: seq<byte> := [0x52, 0x44, 0x00]
  /** `LATEST_CONFIG_VERSION`. */
  const LatestConfigVersion: byte := 1
  const TzNameSize := 100
  /** `sizeof(RidenConfigStructV1)`. */
  const RecordSize := 105
  /** `EEPROM.begin(512)`. */
  const EepromSize := 512

  /** One entry of the `TIMEZONES` table: a display name and its POSIX TZ string. */
  datatype Timezone = Timezone(name: string, tz: string)

  /** The fields a valid record restores. */
  datatype Record = Record(tzName: string, configPortalOnBoot: bool)

  /** Arduino `String`s hold bytes. */
  predicate IsByteString(s: string) {
    forall i :: 0 <= i < |s| ==> s[i] as int < 0x100
  }

  /** What `c_str()` hands to `strcpy`: the text up to its first NUL. */
  function CStr(s: string): string {
    ReadUntil(s, 0 as char).0
  }

  /** The tz_name field `strcpy` leaves: the name, its NUL, and then whatever was there. */
  function TzField(tz: string, junk: seq<byte>): (f: seq<byte>)
    requires IsByteString(tz) && |CStr(tz)| < TzNameSize
    ensures |f| == TzNameSize
  {
    var c := CStr(tz);
    assert forall i :: 0 <= i < |c| ==> c[i] == tz[i] by {
      if 0 as char in tz {
        assert tz == c + [0 as char] + ReadUntil(tz, 0 as char).1;
      }
    }
    seq(TzNameSize, i requires 0 <= i < TzNameSize =>
      if i < |c| then c[i] as int as byte
      else if i == |c| then 0
      else if i < |junk| then junk[i]
      else 0)
  }

  /** The bytes `commit` puts at offset 0. */
  function Encode(tz: string, flag: bool, junk: seq<byte>): (r: seq<byte>)
    requires IsByteString(tz) && |CStr(tz)| < TzNameSize
    ensures |r| == RecordSize
  {
    Magic + [LatestConfigVersion] + TzField(tz, junk) + [if flag then 1 else 0]
  }

  /** `EEPROM.put(0, record)` on the RAM image. */
  function Put(image: seq<byte>, record: seq<byte>): (r: seq<byte>)
    requires |record| <= |image|
    ensures |r| == |image| && r[..|record|] == record
  {
    record + image[|record|..]
  }

  /** The string `String = char*` builds from the tz_name field: the bytes before the first NUL. */
  function FieldString(field: seq<byte>): string {
    CStr(seq(|field|, i requires 0 <= i < |field| => field[i] as char))
  }

  /**
   * What `begin` accepts: a record whose three magic bytes and version
   * match. The name is read up to its NUL; a field without one is cut at
   * 100 bytes here, where C would read on past the field.
   */
  function Decode(image: seq<byte>): (r: Option<Record>)
    requires |image| >= RecordSize
    ensures r.Some? <==> image[..3] == Magic && image[3] == LatestConfigVersion
  {
    if image[..3] == Magic && image[3] == LatestConfigVersion then
      Some(Record(FieldString(image[4..4 + TzNameSize]), image[4 + TzNameSize] != 0))
    else
      None
  }

  /** The tz_name field reads back as the name `strcpy` copied, whatever follows its NUL. */
  lemma TzFieldRoundTrip(tz: string, junk: seq<byte>)
    requires IsByteString(tz) && |CStr(tz)| < TzNameSize
    ensures FieldString(TzField(tz, junk)) == CStr(tz)
  {
    var c := CStr(tz);
    var f := TzField(tz, junk);
    var chars := seq(|f|, i requires 0 <= i < |f| => f[i] as char);
    assert forall i :: 0 <= i < |c| ==> c[i] == tz[i] by {
      if 0 as char in tz {
        assert tz == c + [0 as char] + ReadUntil(tz, 0 as char).1;
      }
    }
    assert chars == c + [0 as char] + chars[|c| + 1..];
    ReadUntilWritten(c, 0 as char, chars[|c| + 1..]);
  }

  /**
   * Round trip: after `commit` has put a record, `begin` accepts it and
   * restores the same name (up to any NUL it contained) and the same flag,
   * whatever else the EEPROM image held.
   */
  lemma ConfigRoundTrip(image: seq<byte>, tz: string, flag: bool, junk: seq<byte>)
    requires |image| >= RecordSize
    requires IsByteString(tz) && |CStr(tz)| < TzNameSize
    ensures Decode(Put(image, Encode(tz, flag, junk))) == Some(Record(CStr(tz), flag))
  {
    var r := Encode(tz, flag, junk);
    var img := Put(image, r);
    assert img[..RecordSize] == r;
    assert img[..3] == Magic;
    assert img[3] == LatestConfigVersion;
    assert img[4..4 + TzNameSize] == TzField(tz, junk);
    TzFieldRoundTrip(tz, junk);
  }

  /** A name without NUL characters is its own C string. */
  lemma CStrOfPlainString(s: string)
    requires 0 as char !in s
    ensures CStr(s) == s
  {
  }

  /**
   * Every name `begin` restores from a record whose field holds its NUL
   * can be committed again. (A field without one yields a 100-character
   * name, one more than `commit`'s field can hold with its terminator.)
   */
  lemma DecodedNameCommittable(image: seq<byte>)
    requires |image| >= RecordSize && Decode(image).Some?
    requires 0 in image[4..4 + TzNameSize]
    ensures var name := Decode(image).value.tzName;
      IsByteString(name) && |CStr(name)| < TzNameSize && CStr(name) == name
  {
    var field := image[4..4 + TzNameSize];
    var chars := seq(|field|, i requires 0 <= i < |field| => field[i] as char);
    assert IsByteString(chars);
    var name := CStr(chars);
    assert name == Decode(image).value.tzName;
    var rest := ReadUntil(chars, 0 as char).1;
    var k :| 0 <= k < |field| && field[k] == 0;
    assert chars[k] == 0 as char;
    assert chars == name + [0 as char] + rest;
    assert |name| < TzNameSize;
    assert forall i :: 0 <= i < |name| ==> name[i] == chars[i];
    assert IsByteString(name);
    CStrOfPlainString(name);
  }

  // ---------------------------------------------------------------------
  // The length of the copied name
  // ---------------------------------------------------------------------

  /** The bytes `strcpy(config.tz_name, tz_name.c_str())` writes from the start of the field: the name and its NUL. */
  function StrcpyBytes(tz: string): nat {
    |CStr(tz)| + 1
  }

  /**
   * As written, `commit` copies without a length check: the copy runs past
   * the 100-byte field exactly when the name, up to any NUL, has 100 bytes
   * or more; for a name without NUL characters, when the name itself does.
   */
  lemma TzNameOverflows(tz: string)
    ensures StrcpyBytes(tz) > TzNameSize <==> |CStr(tz)| >= TzNameSize
    ensures 0 as char !in tz ==> (StrcpyBytes(tz) > TzNameSize <==> |tz| >= TzNameSize)
  {
    if 0 as char !in tz {
      CStrOfPlainString(tz);
    }
  }

  /** The 100-character name "AA…A" makes `strcpy` write 101 bytes into the 100-byte field. */
  lemma TzNameOverflowExample()
    ensures var tz := seq(100, _ => 'A');
      IsByteString(tz) && StrcpyBytes(tz) == 101 && StrcpyBytes(tz) > TzNameSize
  {
    var tz := seq(100, _ => 'A');
    assert forall i :: 0 <= i < |tz| ==> tz[i] == 'A';
    CStrOfPlainString(tz);
  }

  /**
   * The name a bounded copy (`strlcpy(config.tz_name, tz_name.c_str(), 100)`)
   * stores: the C string, cut to 99 bytes to leave room for its NUL.
   */
  function BoundedName(tz: string): string {
    var c := CStr(tz);
    if |c| < TzNameSize then c else c[..TzNameSize - 1]
  }

  /**
   * With the bounded copy every name can be committed, and `begin` restores
   * what was stored: the whole name (up to any NUL) when it fits, and its
   * first 99 bytes when it does not.
   */
  lemma BoundedCommitRoundTrip(image: seq<byte>, tz: string, flag: bool, junk: seq<byte>)
    requires |image| >= RecordSize && IsByteString(tz)
    ensures IsByteString(BoundedName(tz)) && |CStr(BoundedName(tz))| < TzNameSize
    ensures Decode(Put(image, Encode(BoundedName(tz), flag, junk))) == Some(Record(BoundedName(tz), flag))
    ensures |CStr(tz)| < TzNameSize ==> BoundedName(tz) == CStr(tz)
    ensures |CStr(tz)| >= TzNameSize ==> BoundedName(tz) == tz[..TzNameSize - 1]
  {
    BoundedNameFacts(tz);
    ConfigRoundTrip(image, BoundedName(tz), flag, junk);
  }

  /** The bounded copy is a NUL-free byte string short enough for the field. */
  lemma BoundedNameFacts(tz: string)
    requires IsByteString(tz)
    ensures var b := BoundedName(tz);
      && IsByteString(b) && |b| < TzNameSize && CStr(b) == b
      && (|CStr(tz)| < TzNameSize ==> b == CStr(tz))
      && (|CStr(tz)| >= TzNameSize ==> b == tz[..TzNameSize - 1])
  {
    var c := CStr(tz);
    CStrIsPrefix(tz);
    var b := BoundedName(tz);
    assert b == tz[..|b|];
    assert IsByteString(b) by {
      forall i | 0 <= i < |b|
        ensures b[i] as int < 0x100
      {
        assert b[i] == tz[i];
      }
    }
    assert 0 as char !in b by {
      assert b == c[..|b|];
    }
    CStrOfPlainString(b);
  }

  /** `c_str()` is the text's prefix before its first NUL. */
  lemma CStrIsPrefix(s: string)
    ensures |CStr(s)| <= |s| && CStr(s) == s[..|CStr(s)|]
  {
    var c := CStr(s);
    if 0 as char in s {
      assert s == c + [0 as char] + ReadUntil(s, 0 as char).1;
      assert s[..|c|] == c;
    }
  }

  /**
   * `get_timezone_spec`: the POSIX TZ string of the first table entry whose
   * name is `name`, and "" when there is none.
   */
  function TimezoneSpec(table: seq<Timezone>, name: string): string {
    if table == [] then ""
    else if table[0].name == name then table[0].tz
    else TimezoneSpec(table[1..], name)
  }

  /** The search finds the first entry with the name, and "" when no entry has it. */
  lemma {:induction false} TimezoneSpecFirst(table: seq<Timezone>, name: string)
    ensures (forall i :: 0 <= i < |table| ==> table[i].name != name) ==> TimezoneSpec(table, name) == ""
    ensures forall i :: FirstMatch(table, name, i) ==> TimezoneSpec(table, name) == table[i].tz
  {
    if table != [] && table[0].name != name {
      TimezoneSpecFirst(table[1..], name);
      assert forall i :: 1 <= i < |table| ==> table[i] == table[1..][i - 1];
      assert forall i :: FirstMatch(table, name, i) ==> i >= 1 && FirstMatch(table[1..], name, i - 1);
    }
  }

  /** Entry `i` is the first entry of `table` named `name`. */
  predicate FirstMatch(table: seq<Timezone>, name: string, i: int) {
    0 <= i < |table| && table[i].name == name && forall j :: 0 <= j < i ==> table[j].name != name
  }

  // ---------------------------------------------------------------------
  // The EEPROM and the configuration object
  // ---------------------------------------------------------------------

  class Eeprom {
    var cache: seq<byte>
    var flash: seq<byte>

    ghost predicate Valid()
      reads this
    {
      |cache| == EepromSize && |flash| == EepromSize
    }

    constructor (flash: seq<byte>)
      requires |flash| == EepromSize
      ensures Valid() && this.flash == flash && cache == flash
    {
      this.flash := flash;
      cache := flash;
    }

    /** `EEPROM.begin(512)`: loads the RAM image from flash. */
    method Load()
      requires Valid()
      modifies this
      ensures Valid() && cache == flash && flash == old(flash)
    {
      cache := flash;
    }

    /** `EEPROM.commit()`: writes the RAM image to flash when the flash write succeeds. */
    method Commit(flashOk: bool) returns (ok: bool)
      requires Valid()
      modifies this
      ensures Valid() && ok == flashOk && cache == old(cache)
      ensures flash == if ok then cache else old(flash)
    {
      ok := flashOk;
      if ok {
        flash := cache;
      }
    }
  }

  class Config {
    var tzName: string
    var configPortalOnBoot: bool
    /** The `TIMEZONES` table. */
    const timezones: seq<Timezone>
    const eeprom: Eeprom

    ghost predicate Valid()
      reads this, eeprom
    {
      eeprom.Valid()
    }

    /** Whether `commit` can `strcpy` the current name into its 100-byte field. */
    predicate Committable()
      reads this
    {
      IsByteString(tzName) && |CStr(tzName)| < TzNameSize
    }

    constructor (timezones: seq<Timezone>, eeprom: Eeprom)
      requires eeprom.Valid()
      ensures Valid() && this.timezones == timezones && this.eeprom == eeprom
      ensures tzName == "" && !configPortalOnBoot
    {
      this.timezones := timezones;
      this.eeprom := eeprom;
      tzName := "";
      configPortalOnBoot := false;
    }

    /**
     * `commit`: puts the magic, version 1, the name and the flag at offset 0
     * of the RAM image and returns whether the flash write succeeded.
     */
    method Commit(junk: seq<byte>, flashOk: bool) returns (ok: bool)
      requires Valid() && Committable()
      modifies eeprom
      ensures Valid() && ok == flashOk
      ensures eeprom.cache == Put(old(eeprom.cache), Encode(tzName, configPortalOnBoot, junk))
      ensures eeprom.flash == if ok then eeprom.cache else old(eeprom.flash)
    {
      eeprom.cache := Put(eeprom.cache, Encode(tzName, configPortalOnBoot, junk));
      ok := eeprom.Commit(flashOk);
    }

    /**
     * `commit` with the name copied by `BoundedName` instead of `strcpy`, so
     * that any name can be stored: the record read back holds the bounded
     * name and the flag, and the rest of the image is untouched.
     */
    method CommitBounded(junk: seq<byte>, flashOk: bool) returns (ok: bool)
      requires Valid() && IsByteString(tzName)
      modifies eeprom
      ensures Valid() && ok == flashOk
      ensures Decode(eeprom.cache) == Some(Record(BoundedName(tzName), configPortalOnBoot))
      ensures eeprom.cache[RecordSize..] == old(eeprom.cache)[RecordSize..]
      ensures eeprom.flash == if ok then eeprom.cache else old(eeprom.flash)
    {
      BoundedCommitRoundTrip(eeprom.cache, tzName, configPortalOnBoot, junk);
      eeprom.cache := Put(eeprom.cache, Encode(BoundedName(tzName), configPortalOnBoot, junk));
      ok := eeprom.Commit(flashOk);
    }

    /**
     * `begin`: loads the EEPROM; a valid V1 record restores the name and the
     * flag, anything else resets both to their defaults and commits those.
     * Always returns true.
     */
    method Begin(junk: seq<byte>, flashOk: bool) returns (ok: bool)
      requires Valid()
      modifies this, eeprom
      ensures Valid() && ok
      ensures var stored := Decode(old(eeprom.flash));
        && (stored.Some? ==>
              && tzName == stored.value.tzName && configPortalOnBoot == stored.value.configPortalOnBoot
              && eeprom.cache == old(eeprom.flash) && eeprom.flash == old(eeprom.flash))
        && (stored.None? ==>
              && tzName == "" && !configPortalOnBoot
              && eeprom.cache == Put(old(eeprom.flash), Encode("", false, junk))
              && eeprom.flash == if flashOk then eeprom.cache else old(eeprom.flash))
    {
      eeprom.Load();
      var stored := Decode(eeprom.cache);
      if stored.Some? {
        tzName := stored.value.tzName;
        configPortalOnBoot := stored.value.configPortalOnBoot;
      } else {
        tzName := "";
        configPortalOnBoot := false;
        var _ := Commit(junk, flashOk);
      }
      ok := true;
    }

    /** `set_timezone_name`: the in-memory name only; nothing is stored until `commit`. */
    method SetTimezoneName(name: string)
      modifies this
      ensures tzName == name && configPortalOnBoot == old(configPortalOnBoot)
    {
      tzName := name;
    }

    /** `get_timezone_name`. */
    method GetTimezoneName() returns (name: string)
      ensures name == tzName
    {
      name := tzName;
    }

    /** `get_timezone_spec`: a linear search of the table. */
    method GetTimezoneSpec() returns (spec: string)
      ensures spec == TimezoneSpec(timezones, tzName)
    {
      var i := 0;
      while i < |timezones|
        invariant 0 <= i <= |timezones|
        invariant TimezoneSpec(timezones[i..], tzName) == TimezoneSpec(timezones, tzName)
      {
        assert timezones[i..][1..] == timezones[i + 1..];
        if timezones[i].name == tzName {
          return timezones[i].tz;
        }
        i := i + 1;
      }
      spec := "";
    }

    /** `set_config_portal_on_boot`: sets the in-memory flag only. */
    method SetConfigPortalOnBoot()
      modifies this
      ensures configPortalOnBoot && tzName == old(tzName)
    {
      configPortalOnBoot := true;
    }

    /**
     * `get_and_reset_config_portal_on_boot`: when the flag is set, clears it,
     * commits and returns true; otherwise returns false and writes nothing.
     */
    method GetAndResetConfigPortalOnBoot(junk: seq<byte>, flashOk: bool) returns (wasSet: bool)
      requires Valid() && (configPortalOnBoot ==> Committable())
      modifies this, eeprom
      ensures Valid() && wasSet == old(configPortalOnBoot)
      ensures !configPortalOnBoot && tzName == old(tzName)
      ensures wasSet ==>
        && eeprom.cache == Put(old(eeprom.cache), Encode(tzName, false, junk))
        && eeprom.flash == if flashOk then eeprom.cache else old(eeprom.flash)
      ensures !wasSet ==> eeprom.cache == old(eeprom.cache) && eeprom.flash == old(eeprom.flash)
    {
      if configPortalOnBoot {
        configPortalOnBoot := false;
        var _ := Commit(junk, flashOk);
        return true;
      }
      wasSet := false;
    }
  }

  /**
   * The portal flag is one-shot: once set it is reported exactly once, and
   * the record then written to flash reads back with the name and the flag
   * clear.
   */
  method PortalFlagIsOneShot(config: Config, junk: seq<byte>) returns (first: bool, second: bool)
    requires config.Valid() && config.Committable()
    modifies config, config.eeprom
    ensures first && !second && !config.configPortalOnBoot
    ensures |config.eeprom.flash| >= RecordSize
      && Decode(config.eeprom.flash) == Some(Record(CStr(config.tzName), false))
  {
    ConfigRoundTrip(config.eeprom.cache, config.tzName, false, junk);
    config.SetConfigPortalOnBoot();
    first := config.GetAndResetConfigPortalOnBoot(junk, true);
    second := config.GetAndResetConfigPortalOnBoot(junk, true);
  }

  /**
   * A committed configuration is restored by the next `begin`: the name up
   * to its first NUL, and the flag.
   */
  method CommitThenBegin(config: Config, junk: seq<byte>, junk2: seq<byte>)
    requires config.Valid() && config.Committable()
    modifies config, config.eeprom
    ensures config.tzName == CStr(old(config.tzName))
    ensures config.configPortalOnBoot == old(config.configPortalOnBoot)
  {
    var name, flag := config.tzName, config.configPortalOnBoot;
    ConfigRoundTrip(config.eeprom.cache, name, flag, junk);
    var ok := config.Commit(junk, true);
    var _ := config.Begin(junk2, true);
  }
}
