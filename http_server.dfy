/**
 * The small decisions inside the web server (`RidenHttpServer`): the
 * enum and language names shown on the status page, the firmware-version
 * and serial-number strings printed into fixed static buffers, the two
 * template processors, the status codes of the WiFi save/clear handlers and
 * the routing of a client-disconnect request to one of the three servers.
 *
 * The request's arguments are parameters (`Option` when the handler asks
 * `hasArg`), `IPAddress::fromString` is an oracle giving the parsed address
 * or nothing, and responses, restarts and the SCPI/VXI-11 servers'
 * `disconnect_client` are logged as `HttpCall`s.
 */
module HttpServer {
  import opened Arduino
  import WifiManager
  import ModbusBridge
  import RidenConfig

  // ---------------------------------------------------------------------
  // Names shown on the status page
  // ---------------------------------------------------------------------

  /** The power supply's protection state; any value other than OVP and OCP is `OtherProtection`. */
  datatype Protection = Ovp | Ocp | OtherProtection(code: int)

  /** The power supply's output mode; any value other than CV and CC is `OtherMode`. */
  datatype OutputMode = ConstantVoltage | ConstantCurrent | OtherMode(code: int)

  /** `protection_to_string`. */
  function ProtectionToString(p: Protection): string {
    match p
    case Ovp => "OVP"
    case Ocp => "OCP"
    case OtherProtection(_) => "None"
  }

  /** `outputmode_to_string`. */
  function OutputModeToString(m: OutputMode): string {
    match m
    case ConstantVoltage => "Constant Voltage"
    case ConstantCurrent => "Constant Current"
    case OtherMode(_) => "Unknown"
  }

  /** Each of the three names is shown for exactly one kind of state, both ways round. */
  lemma NamesIdentifyState(p: Protection, m: OutputMode)
    ensures ProtectionToString(p) in {"OVP", "OCP", "None"}
    ensures ProtectionToString(p) == "OVP" <==> p == Ovp
    ensures ProtectionToString(p) == "OCP" <==> p == Ocp
    ensures ProtectionToString(p) == "None" <==> p.OtherProtection?
    ensures OutputModeToString(m) in {"Constant Voltage", "Constant Current", "Unknown"}
    ensures OutputModeToString(m) == "Constant Voltage" <==> m == ConstantVoltage
    ensures OutputModeToString(m) == "Constant Current" <==> m == ConstantCurrent
    ensures OutputModeToString(m) == "Unknown" <==> m.OtherMode?
  {
  }

  const LanguageNames := ["English", "Chinese", "German", "French", "Russian"]
  const UnknownPrefix := "Unknown ("

  /** `language_to_string`: ids 0 to 4 are named, any other id is shown in decimal. */
  function LanguageToString(id: uint16): string {
    if id < |LanguageNames| then LanguageNames[id] else UnknownPrefix + Decimal(id as nat) + ")"
  }

  /**
   * An unknown id is shown as "Unknown (", its decimal digits and ")", and
   * the digits read back as the id; a known id is shown by its name, which
   * never starts like the unknown form.
   */
  lemma LanguageReadsBack(id: uint16)
    ensures var r := LanguageToString(id);
      && (id < 5 ==> r == LanguageNames[id] && r[0] != 'U')
      && (id >= 5 ==>
            && |r| >= |UnknownPrefix| + 2 && r[..|UnknownPrefix|] == UnknownPrefix && r[|r| - 1] == ')'
            && IsDigits(r[|UnknownPrefix|..|r| - 1]) && DigitsValue(r[|UnknownPrefix|..|r| - 1]) == id as nat)
  {
    var r := LanguageToString(id);
    if id >= 5 {
      var d := Decimal(id as nat);
      assert r == UnknownPrefix + d + ")";
      assert r[|UnknownPrefix|..|r| - 1] == d;
      DecimalValue(id as nat);
    }
  }

  /** Different ids are never shown as the same text. */
  lemma LanguageInjective(a: uint16, b: uint16)
    requires LanguageToString(a) == LanguageToString(b)
    ensures a == b
  {
    LanguageReadsBack(a);
    LanguageReadsBack(b);
  }

  // ---------------------------------------------------------------------
  // Fixed-size buffers
  // ---------------------------------------------------------------------

  /** What `sprintf` of a text does to a `char[capacity]`: the text fits, or it overflows after writing this many bytes (the NUL included). */
  datatype Formatted = Fits(text: string) | Overflows(bytesWritten: nat)

  function Sprintf(capacity: nat, text: string): Formatted {
    if |text| + 1 <= capacity then Fits(text) else Overflows(|text| + 1)
  }

  /** The static buffers of `get_firmware_version` and `get_serial_number`. */
  const VersionBufferSize := 10
  const SerialBufferSize := 10
  /** A serial-number buffer that holds any `uint32` printed with `%08u`. */
  const CorrectedSerialBufferSize := 11
  const SerialDigits := 8

  /** `%u.%u` of `v / 100` and `v % 100`: the minor part is not zero-padded. */
  function FirmwareVersionText(v: uint16): string {
    Decimal(v as nat / 100) + "." + Decimal(v as nat % 100)
  }

  /** `get_firmware_version` with the firmware's version register `v`. */
  function GetFirmwareVersion(v: uint16): Formatted {
    Sprintf(VersionBufferSize, FirmwareVersionText(v))
  }

  /**
   * The version text always fits its 10-byte buffer (at most six
   * characters), and its two parts, split at the only dot, read back as
   * `v / 100` and `v % 100`.
   */
  lemma FirmwareVersionFits(v: uint16)
    ensures var r := GetFirmwareVersion(v);
      var k := |Decimal(v as nat / 100)|;
      && r == Fits(FirmwareVersionText(v)) && |r.text| <= 6
      && k < |r.text| && r.text[k] == '.' && '.' !in r.text[..k] && '.' !in r.text[k + 1..]
      && IsDigits(r.text[..k]) && DigitsValue(r.text[..k]) == v as nat / 100
      && IsDigits(r.text[k + 1..]) && DigitsValue(r.text[k + 1..]) == v as nat % 100
  {
    var major, minor := Decimal(v as nat / 100), Decimal(v as nat % 100);
    var t := FirmwareVersionText(v);
    assert Pow10(3) == 1000 && Pow10(2) == 100 by {
      assert Pow10(1) == 10;
    }
    DecimalLength(v as nat / 100, 3);
    DecimalLength(v as nat % 100, 2);
    assert t[..|major|] == major && t[|major| + 1..] == minor;
    DecimalValue(v as nat / 100);
    DecimalValue(v as nat % 100);
    assert forall i :: 0 <= i < |major| ==> major[i] != '.' by {
      assert IsDigits(major);
    }
    assert forall i :: 0 <= i < |minor| ==> minor[i] != '.' by {
      assert IsDigits(minor);
    }
  }

  /** Different version registers are shown as different texts. */
  lemma FirmwareVersionInjective(v: uint16, w: uint16)
    requires FirmwareVersionText(v) == FirmwareVersionText(w)
    ensures v == w
  {
    FirmwareVersionFits(v);
    FirmwareVersionFits(w);
    var t := FirmwareVersionText(v);
    var kv, kw := |Decimal(v as nat / 100)|, |Decimal(w as nat / 100)|;
    NoDotBefore(t, kv);
    NoDotBefore(t, kw);
    FirstDot(t, kv, kw);
    assert DigitsValue(t[..kv]) == v as nat / 100 == w as nat / 100;
    assert DigitsValue(t[kv + 1..]) == v as nat % 100 == w as nat % 100;
    assert v as nat == 100 * (v as nat / 100) + v as nat % 100;
    assert w as nat == 100 * (w as nat / 100) + w as nat % 100;
  }

  /** A text has only one first dot. */
  lemma FirstDot(t: string, i: nat, j: nat)
    requires i < |t| && t[i] == '.' && forall m :: 0 <= m < i ==> t[m] != '.'
    requires j < |t| && t[j] == '.' && forall m :: 0 <= m < j ==> t[m] != '.'
    ensures i == j
  {
  }

  /** The characters before the first dot are not dots. */
  lemma NoDotBefore(t: string, k: nat)
    requires k <= |t| && '.' !in t[..k]
    ensures forall m :: 0 <= m < k ==> t[m] != '.'
  {
    forall m | 0 <= m < k
      ensures t[m] != '.'
    {
      assert t[..k][m] == t[m];
    }
  }

  /** `%08u` of the serial number. */
  function SerialText(serial: uint32): string {
    ZeroPad(Decimal(serial as nat), SerialDigits)
  }

  /** `get_serial_number` as written: `%08u` into a `char[10]`. */
  function GetSerialNumberAsWritten(serial: uint32): Formatted {
    Sprintf(SerialBufferSize, SerialText(serial))
  }

  /** The 10-byte buffer overflows exactly for the serial numbers with ten digits. */
  lemma SerialNumberOverflows(serial: uint32)
    ensures GetSerialNumberAsWritten(serial).Overflows? <==> serial as nat >= Pow10(9)
  {
    DecimalLength(serial as nat, 9);
    assert Pow10(9) > SerialDigits by {
      assert Pow10(1) == 10;
    }
  }

  /** The largest serial number makes `sprintf` write eleven bytes into the ten-byte buffer. */
  lemma SerialNumberOverflowExample()
    ensures GetSerialNumberAsWritten(4294967295) == Overflows(11)
  {
    assert Pow10(9) == 1000000000 && Pow10(10) == 10000000000 by {
      assert Pow10(1) == 10 && Pow10(2) == 100 && Pow10(3) == 1000 && Pow10(4) == 10000;
      assert Pow10(5) == 100000 && Pow10(6) == 1000000 && Pow10(7) == 10000000 && Pow10(8) == 100000000;
    }
    DecimalLength(4294967295, 10);
    DecimalLength(4294967295, 9);
  }

  /** `get_serial_number` with an 11-byte buffer. */
  function GetSerialNumber(serial: uint32): Formatted {
    Sprintf(CorrectedSerialBufferSize, SerialText(serial))
  }

  /**
   * With 11 bytes every serial number fits; the text has at least eight
   * digits, exactly eight below 10^8, and reads back as the serial number.
   */
  lemma SerialNumberFits(serial: uint32)
    ensures var r := GetSerialNumber(serial);
      && r.Fits? && r.text == SerialText(serial)
      && IsDigits(r.text) && DigitsValue(r.text) == serial as nat
      && |r.text| >= SerialDigits && (|r.text| == SerialDigits <==> serial as nat < Pow10(SerialDigits))
  {
    assert Pow10(10) == 10000000000 && Pow10(10) > Pow10(SerialDigits) by {
      assert Pow10(1) == 10 && Pow10(2) == 100 && Pow10(3) == 1000 && Pow10(4) == 10000;
      assert Pow10(5) == 100000 && Pow10(6) == 1000000 && Pow10(7) == 10000000 && Pow10(8) == 100000000;
      assert Pow10(9) == 1000000000;
    }
    DecimalLength(serial as nat, 10);
    DecimalLength(serial as nat, SerialDigits);
    DecimalValue(serial as nat);
    ZeroPadValue(Decimal(serial as nat), SerialDigits);
  }

  /** Different serial numbers are shown as different texts. */
  lemma SerialNumberInjective(a: uint32, b: uint32)
    requires GetSerialNumber(a) == GetSerialNumber(b)
    ensures a == b
  {
    SerialNumberFits(a);
    SerialNumberFits(b);
  }

  // ---------------------------------------------------------------------
  // Routing of disconnect requests
  // ---------------------------------------------------------------------

  const ScpiProtocol := "SCPI RAW"
  const ModbusTcpProtocol := "Modbus TCP"
  const Vxi11Protocol := "VXI-11"

  datatype Target = NoTarget | ScpiServer(ip: uint32) | ModbusTcpServer(ip: uint32) | VxiServer(ip: uint32)

  /** The server `handle_disconnect_client_post` asks to drop the client, given the parsed `ip` argument. */
  function DisconnectTarget(ip: Option<uint32>, protocol: string): Target {
    if ip.None? then NoTarget
    else if protocol == ScpiProtocol then ScpiServer(ip.value)
    else if protocol == ModbusTcpProtocol then ModbusTcpServer(ip.value)
    else if protocol == Vxi11Protocol then VxiServer(ip.value)
    else NoTarget
  }

  /**
   * Nothing is disconnected when the address does not parse or the
   * protocol is none of the three names; otherwise exactly the server with
   * that name is asked, for the parsed address.
   */
  lemma DisconnectRouting(ip: Option<uint32>, protocol: string)
    ensures var t := DisconnectTarget(ip, protocol);
      && (t == NoTarget <==> ip.None? || protocol !in {ScpiProtocol, ModbusTcpProtocol, Vxi11Protocol})
      && (t.ScpiServer? <==> ip.Some? && protocol == ScpiProtocol)
      && (t.ModbusTcpServer? <==> ip.Some? && protocol == ModbusTcpProtocol)
      && (t.VxiServer? <==> ip.Some? && protocol == Vxi11Protocol)
      && (t != NoTarget ==> t.ip == ip.value)
  {
  }

  // ---------------------------------------------------------------------
  // The server
  // ---------------------------------------------------------------------

  datatype HttpCall =
    | Respond(status: int)
    | FsEnd
    | Restart
    | ScpiDisconnect(ip: uint32)
    | VxiDisconnect(ip: uint32)
    | RedirectRoot
    | RedirectSelf

  class Server {
    /** The global `WifiManager`. */
    const wifi: WifiManager.Manager
    /** `_bridge`. */
    const bridge: ModbusBridge.Bridge
    /** The global `riden_config`. */
    const config: RidenConfig.Config
    var calls: seq<HttpCall>

    constructor (wifi: WifiManager.Manager, bridge: ModbusBridge.Bridge, config: RidenConfig.Config)
      ensures this.wifi == wifi && this.bridge == bridge && this.config == config && calls == []
    {
      this.wifi := wifi;
      this.bridge := bridge;
      this.config := config;
      calls := [];
    }

    /** `_htmlProcessor`: the page template's only variable is the stored ssid. */
    function HtmlProcessor(name: string): string
      reads this, wifi
    {
      if name == "WIFI_SSID" then wifi.ssid else ""
    }

    /**
     * `_htmlPsuConfigPageProcessor`; `uartBaudrate` stands for
     * `riden_config.get_uart_baudrate()`.
     */
    function PsuConfigProcessor(name: string, uartBaudrate: uint32): string
      reads this, config
    {
      if name == "TIMEZONE" then config.tzName
      else if name == "UARTBAUDRATE" then Decimal(uartBaudrate as nat)
      else ""
    }

    /** The page template's `WIFI_SSID` becomes the stored ssid, and every other variable the empty text. */
    lemma HtmlProcessorReplacesOnlySsid(name: string)
      ensures HtmlProcessor("WIFI_SSID") == wifi.ssid
      ensures name != "WIFI_SSID" ==> HtmlProcessor(name) == ""
    {
    }

    /**
     * The configuration page's `TIMEZONE` becomes the configured timezone
     * name, `UARTBAUDRATE` a non-empty decimal text that reads back as the
     * baud rate, and every other variable the empty text.
     */
    lemma PsuConfigProcessorReplacesOnlyItsVariables(name: string, uartBaudrate: uint32)
      ensures PsuConfigProcessor("TIMEZONE", uartBaudrate) == config.tzName
      ensures var b := PsuConfigProcessor("UARTBAUDRATE", uartBaudrate);
        b != "" && IsDigits(b) && DigitsValue(b) == uartBaudrate as nat
      ensures name != "TIMEZONE" && name != "UARTBAUDRATE" ==> PsuConfigProcessor(name, uartBaudrate) == ""
    {
      DecimalValue(uartBaudrate as nat);
    }

    /**
     * `_handleSaveWiFi`: 400 and nothing changed unless both arguments are
     * present; otherwise the credentials are set and saved, and the reply is
     * 200 followed by unmounting and a restart when the file could be
     * written, 500 when it could not.
     */
    method HandleSaveWiFi(ssidArg: Option<string>, passwordArg: Option<string>) returns (status: int)
      modifies this, wifi, wifi.fs
      ensures status in {200, 400, 500}
      ensures status == 400 <==> ssidArg.None? || passwordArg.None?
      ensures status == 400 ==>
        && wifi.ssid == old(wifi.ssid) && wifi.password == old(wifi.password)
        && wifi.fs.files == old(wifi.fs.files) && wifi.fs.mounted == old(wifi.fs.mounted)
      ensures status != 400 ==>
        && wifi.ssid == ssidArg.value && wifi.password == passwordArg.value
        && (status == 200 <==> old(wifi.fs.mounted && wifi.fs.writable))
      ensures status == 200 ==>
        && wifi.fs.files == old(wifi.fs.files)[WifiManager.CredentialsFile := WifiManager.FormatCredentials(wifi.ssid, wifi.password)]
        && !wifi.fs.mounted
      ensures status == 500 ==> wifi.fs.files == old(wifi.fs.files) && wifi.fs.mounted == old(wifi.fs.mounted)
      ensures calls == old(calls) + if status == 200 then [Respond(200), FsEnd, Restart] else [Respond(status)]
      ensures wifi.calls == old(wifi.calls)
    {
      if ssidArg.Some? && passwordArg.Some? {
        wifi.SetCredentials(ssidArg.value, passwordArg.value);
        var ok := wifi.SaveCredentials();
        if ok {
          status := 200;
          calls := calls + [Respond(200)];
          wifi.fs.End();
          calls := calls + [FsEnd, Restart];
        } else {
          status := 500;
          calls := calls + [Respond(500)];
        }
      } else {
        status := 400;
        calls := calls + [Respond(400)];
      }
    }

    /**
     * `_handleClearWiFi` as written. `clearCredentials` restarts the device
     * as soon as the file is removed, so the handler never gets to its 200
     * branch: a successful clear sends no reply at all (`None`), and only the
     * failure reply 500 is ever sent.
     */
    method HandleClearWiFi() returns (reply: Option<int>)
      modifies this, wifi, wifi.fs
      ensures reply.None? <==> old(wifi.fs.mounted) && WifiManager.CredentialsFile in old(wifi.fs.files)
      ensures reply != Some(200)
      ensures reply.None? ==>
        && wifi.fs.files == old(wifi.fs.files) - {WifiManager.CredentialsFile}
        && wifi.calls == old(wifi.calls) + [WifiManager.EraseAp, WifiManager.FsEnd, WifiManager.Restart]
        && calls == old(calls)
      ensures reply.Some? ==>
        && reply.value == 500
        && wifi.fs.files == old(wifi.fs.files) && wifi.calls == old(wifi.calls)
        && calls == old(calls) + [Respond(500)]
    {
      var restarted := wifi.ClearCredentials();
      if restarted {
        reply := None;
      } else {
        reply := Some(500);
        calls := calls + [Respond(500)];
      }
    }

    /**
     * `_handleClearWiFi` as its two replies intend, ordered like
     * `_handleSaveWiFi`: the file is removed, then "Credentials cleared."
     * (200) goes out before the access point is erased, the file system
     * unmounted and the device restarted; 500 when there was no file to
     * remove.
     */
    method HandleClearWiFiReplyFirst() returns (status: int)
      modifies this, wifi, wifi.fs
      ensures status == 200 || status == 500
      ensures status == 200 <==> old(wifi.fs.mounted) && WifiManager.CredentialsFile in old(wifi.fs.files)
      ensures status == 200 ==>
        && wifi.fs.files == old(wifi.fs.files) - {WifiManager.CredentialsFile} && !wifi.fs.mounted
        && wifi.calls == old(wifi.calls) + [WifiManager.EraseAp]
        && calls == old(calls) + [Respond(200), FsEnd, Restart]
      ensures status == 500 ==>
        && wifi.fs.files == old(wifi.fs.files) && wifi.fs.mounted == old(wifi.fs.mounted)
        && wifi.calls == old(wifi.calls) && calls == old(calls) + [Respond(500)]
    {
      var removed := wifi.fs.Remove(WifiManager.CredentialsFile);
      if removed {
        status := 200;
        calls := calls + [Respond(200)];
        wifi.calls := wifi.calls + [WifiManager.EraseAp];
        wifi.fs.End();
        calls := calls + [FsEnd, Restart];
      } else {
        status := 500;
        calls := calls + [Respond(500)];
      }
    }

    /**
     * `handle_config_post`, with the bounded copy of the name: the
     * `timezone` argument ("" when absent) becomes the configured name, the
     * record stored holds it (cut to 99 bytes when longer), the portal flag
     * is kept, and the page redirects to itself.
     */
    method HandleConfigPost(tz: string, junk: seq<RidenConfig.byte>, flashOk: bool)
      requires config.Valid() && RidenConfig.IsByteString(tz)
      modifies this, config, config.eeprom
      ensures config.Valid()
      ensures config.tzName == tz && config.configPortalOnBoot == old(config.configPortalOnBoot)
      ensures RidenConfig.Decode(config.eeprom.cache)
        == Some(RidenConfig.Record(RidenConfig.BoundedName(tz), config.configPortalOnBoot))
      ensures config.eeprom.flash == if flashOk then config.eeprom.cache else old(config.eeprom.flash)
      ensures calls == old(calls) + [RedirectSelf]
    {
      config.SetTimezoneName(tz);
      var _ := config.CommitBounded(junk, flashOk);
      calls := calls + [RedirectSelf];
    }

    /**
     * `handle_disconnect_client_post`, with `ip` the result of parsing the
     * `ip` argument: drops the client from the server the protocol names
     * (for Modbus TCP, the bridge's client table), and always redirects to
     * the root page. The bridge must have been begun before it is asked.
     */
    method HandleDisconnectClientPost(ip: Option<uint32>, protocol: string)
      requires bridge.Valid()
      requires DisconnectTarget(ip, protocol).ModbusTcpServer? ==> bridge.initialized
      modifies this, if bridge.tcp == null then {} else {bridge.tcp.slots}
      ensures var t := DisconnectTarget(ip, protocol);
        calls == old(calls) + (match t
                               case ScpiServer(a) => [ScpiDisconnect(a)]
                               case VxiServer(a) => [VxiDisconnect(a)]
                               case _ => []) + [RedirectRoot]
      ensures bridge.tcp != null ==>
        var t := DisconnectTarget(ip, protocol);
        var n := if t.ModbusTcpServer? then ModbusBridge.GetMaster(old(bridge.tcp.slots[..]), t.ip) else -1;
        bridge.tcp.slots[..] == if n == -1 then old(bridge.tcp.slots[..]) else old(bridge.tcp.slots[..])[n := None]
    {
      if ip.Some? {
        if protocol == ScpiProtocol {
          calls := calls + [ScpiDisconnect(ip.value)];
        } else if protocol == ModbusTcpProtocol {
          bridge.DisconnectClient(ip.value);
        } else if protocol == Vxi11Protocol {
          calls := calls + [VxiDisconnect(ip.value)];
        }
      }
      calls := calls + [RedirectRoot];
    }
  }

  /**
   * Saving credentials through the web page and reading the file back
   * gives the trimmed arguments, as long as neither holds a line break.
   */
  method SavedCredentialsReadBack(server: Server, ssid: string, password: string) returns (status: int)
    requires '\n' !in ssid && '\n' !in password
    modifies server, server.wifi, server.wifi.fs
    ensures status == 200 ==>
      && WifiManager.CredentialsFile in server.wifi.fs.files
      && WifiManager.ParseCredentials(server.wifi.fs.files[WifiManager.CredentialsFile]) == (Trim(ssid), Trim(password))
  {
    status := server.HandleSaveWiFi(Some(ssid), Some(password));
    WifiManager.CredentialsRoundTrip(ssid, password);
  }
}
