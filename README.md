# riden-dongle firmware core in Dafny

The riden-dongle is ESP32 firmware that puts a Riden RD60xx bench power supply on
the network. It bridges Modbus TCP to the supply's Modbus RTU port, runs SCPI and
VXI-11 servers, serves a web UI and keeps a WebSerial console. This project models
the sequential logic under that plumbing and proves what it promises:

- `modbus_bridge.dfy` (`ModbusBridge`): the Modbus TCP→RTU bridge.
  - It is a single-instance correlation state machine: a request forwarded to the
    supply records the MBAP transaction id, unit id and peer address (section 3.1.3
    of the Modbus Messaging on TCP/IP Implementation Guide V1.0b).
  - The device's reply is routed back to that peer, or the peer gets exception 0x0B
    (section 7 of the Modbus Application Protocol Specification V1.1b3).
  - `one_and_only` is the global registry.
  - The TCP server's client table is a fixed array of slots.
- `wifi_manager.dfy` (`WifiManager`): the two-line credentials file, station/AP
  selection in `begin` and `connect` with its 10-poll wait, and one round of the
  `keepAlive` loop.
- `riden_config.dfy` (`RidenConfig`):
  - the V1 EEPROM record (magic `"RD\0"`, version 1, `char[100]` timezone name, portal flag) with validation and fallback to defaults;
  - the timezone lookup;
  - the one-shot "config portal on boot" flag.
- `riden_status.dfy` (`RidenStatus`): the 200 ms status-poller throttle, computed on the 32-bit millisecond clock with wrap-around.
- `firmware.dfy` (`Firmware`): the boot and console logic of `main.cpp`:
  - the `scpi list` summariser of `/SCPI_COMMANDS.md`;
  - the WebSerial dispatcher and its safemode gating;
  - the failsafe flag-file boot protocol;
  - the bounded wait for the supply in `StartServices`, and the hostname;
  - the EN-pin handling of `loop`.
- `http_server.dfy` (`HttpServer`):
  - the enum and language names;
  - the firmware-version and serial-number texts printed into static buffers;
  - the two template processors;
  - the status codes of the WiFi save/clear handlers and the configuration POST handler;
  - the routing of client-disconnect requests.
- `arduino.dfy` (`Arduino`) and `flash_fs.dfy` (`FlashFs`) model the parts of the
  platform the logic depends on:
  - `String::trim`, `readStringUntil`, `startsWith` and `%u`/`%08u` printing;
  - the fixed-width integers;
  - LittleFS as a map from paths to contents, with mount and writability oracles.

Hardware and library behaviour comes in as parameters:

- WiFi link status, flash-write success, the Modbus driver's answers, the SCPI handler's replies and the clock are oracles.
- Calls into libraries (`rawRequest`, `WiFi.begin`, `ESP.restart`, …) are appended to a `calls` log, and the console's output to `out`.
- Where the source works step by step, the model is a class with `modifies` clauses and loops with invariants. Each such method is proved equal to a specification function, and the lemmas state the properties of that function.

## Model

| member | source | states |
|---|---|---|
| ModbusBridge.NotInitializedRefuses | src/riden_modbus_bridge/riden_modbus_bridge.cpp:78-114 | both callbacks return the general-failure code, change no state and make no call while the bridge is not initialized |
| ModbusBridge.ForwardFailureAnswersPeer | src/riden_modbus_bridge/riden_modbus_bridge.cpp:91-95 | when `rawRequest` fails the peer gets exception 0x0B for the request's function code, the same code is returned, and the pending triple and hook are unchanged |
| ModbusBridge.ForwardRecordsPending | src/riden_modbus_bridge/riden_modbus_bridge.cpp:97-102 | a forwarded request records the frame's (transaction id, unit id, address), arms the RTU hook and returns success |
| ModbusBridge.RtuRawRoutesReply | src/riden_modbus_bridge/riden_modbus_bridge.cpp:119-134 | the RTU hook always uninstalls itself; a device reply goes to the recorded address under the recorded ids and clears them; a frame to the server passes through with the pending triple kept |
| ModbusBridge.HookArmedMeansLastForwarded | src/riden_modbus_bridge/riden_modbus_bridge.cpp:97-134 | over any run of callbacks, whenever the hook is armed the pending triple is that of the last request the RTU master accepted |
| ModbusBridge.RequestReplyRoundTrip | src/riden_modbus_bridge/riden_modbus_bridge.cpp:76-136 | a forwarded request followed by the device's reply sends exactly that reply to the requesting peer with its transaction and unit ids and leaves the bridge idle |
| ModbusBridge.ConnectedIpsMembership | src/riden_modbus_bridge/riden_modbus_bridge.cpp:148-157 | an address is listed as connected exactly when some non-null slot holds a connected client with it |
| ModbusBridge.GetMaster | src/riden_modbus_bridge/riden_modbus_bridge.cpp:161 | the index of the first slot with a connected client at the address, or -1 exactly when there is none |
| ModbusBridge.ClientTable.GetConnectedClients | src/riden_modbus_bridge/riden_modbus_bridge.cpp:148-157 | the loop returns the addresses of the non-null, connected slots in slot order |
| ModbusBridge.ClientTable.DisconnectClient | src/riden_modbus_bridge/riden_modbus_bridge.cpp:159-167 | nulls only the slot `getMaster` finds and changes nothing when it finds none |
| ModbusBridge.Registry.constructor | src/riden_modbus_bridge/riden_modbus_bridge.cpp:16 | `one_and_only` starts empty |
| ModbusBridge.Bridge.constructor | include/riden_modbus_bridge/riden_modbus_bridge.h:32-37 | a new bridge is uninitialized with all pending fields 0 |
| ModbusBridge.Bridge.Begin | src/riden_modbus_bridge/riden_modbus_bridge.cpp:20-42 | true and no change when already initialized; false and no change when another bridge is registered; otherwise creates the TCP server, registers itself and becomes initialized |
| ModbusBridge.Bridge.OnTcpRaw | src/riden_modbus_bridge/riden_modbus_bridge.cpp:76-104 | the TCP callback's new state, result and library calls are those of `TcpRaw` |
| ModbusBridge.Bridge.OnRtuRaw | src/riden_modbus_bridge/riden_modbus_bridge.cpp:110-136 | the RTU callback's new state, result and library calls are those of `RtuRaw` |
| ModbusBridge.Bridge.GetConnectedClients | src/riden_modbus_bridge/riden_modbus_bridge.cpp:61-64 | forwards to the TCP server's client list |
| ModbusBridge.Bridge.DisconnectClient | src/riden_modbus_bridge/riden_modbus_bridge.cpp:66-70 | forwards to the TCP server: only the slot `getMaster` finds is nulled |
| ModbusBridge.TcpTrampoline | src/riden_modbus_bridge/riden_modbus_bridge.cpp:138-141 | the plain TCP callback acts on the registered bridge exactly as its method does |
| ModbusBridge.RtuTrampoline | src/riden_modbus_bridge/riden_modbus_bridge.cpp:143-146 | the plain RTU callback acts on the registered bridge exactly as its method does |
| ModbusBridge.SecondBridgeRefused | src/riden_modbus_bridge/riden_modbus_bridge.cpp:20-42 | after one bridge has begun, a second one's `begin` fails and it stays uninitialized while the first stays registered |
| WifiManager.CredentialsRoundTrip | src/WifiManager.cpp:50-55 | reading back what `saveCredentials` wrote (each field plus `println`'s "\r\n") yields the trimmed ssid and password when neither holds a newline |
| WifiManager.AttemptsFrom | src/WifiManager.cpp:113-119 | the connect loop waits at most 10 times and stops at the first poll that reports the link up |
| WifiManager.AttemptsIsFirstUp | src/WifiManager.cpp:113-119 | a loop that stopped after n waits with all earlier polls down has made exactly the waits `Attempts` counts |
| WifiManager.ConnectLogShape | src/WifiManager.cpp:106-143 | `connect` starts one station connection with the stored credentials, waits at most 10 s, then spawns the keep-alive task exactly when the final poll is up and opens the AP otherwise, never both |
| WifiManager.KeepAliveNoRetryStorm | src/WifiManager.cpp:77-104 | over any run of keep-alive rounds, a reconnect is started only when the link is found down, always with the stored credentials, and each failed reconnect has its own 30 s back-off; keep-alive never restarts or opens the AP |
| WifiManager.Manager.constructor | include/WifiManager.h:20-22 | ssid and password start empty |
| WifiManager.Manager.ReadCredentials | src/WifiManager.cpp:41-60 | false with the fields untouched when the file cannot be opened; otherwise the fields become the trimmed first two lines and the result says whether both are non-empty |
| WifiManager.Manager.SaveCredentials | src/WifiManager.cpp:151-165 | writes the ssid line then the password line; false, with nothing written, only when the file cannot be opened |
| WifiManager.Manager.SetCredentials | src/WifiManager.cpp:145-149 | changes the in-memory fields only |
| WifiManager.Manager.ClearCredentials | src/WifiManager.cpp:29-39 | when the file existed it is removed, then the AP is erased, the file system unmounted and the device restarted (the true result stands for that restart, which never returns); otherwise false and nothing changes |
| WifiManager.Manager.StartApMode | src/WifiManager.cpp:62-71 | opens the access point "ESP32_AP" |
| WifiManager.Manager.Connect | src/WifiManager.cpp:106-143 | the polling loop makes exactly the calls of `ConnectLog` and reports the final poll |
| WifiManager.Manager.Begin | src/WifiManager.cpp:14-27 | connects (the calls of `ConnectLog`) when the stored credentials are valid and opens the access point otherwise |
| WifiManager.Manager.KeepAliveIteration | src/WifiManager.cpp:78-103 | one round: sleep 10 s when up; otherwise restart the station connection, wait at most 20 s and sleep 30 s if still down |
| RidenConfig.Encode | src/riden_config/riden_config.cpp:95-99 | the record `commit` builds is 105 bytes |
| RidenConfig.Decode | src/riden_config/riden_config.cpp:32-36 | a stored record is accepted exactly when its three magic bytes are "RD\0" and its version is 1 |
| RidenConfig.TzFieldRoundTrip | src/riden_config/riden_config.cpp:98 | the field `strcpy` fills reads back as the name up to its first NUL, whatever bytes follow |
| RidenConfig.ConfigRoundTrip | src/riden_config/riden_config.cpp:95-100 | after `commit` puts a record into any image, `begin` accepts it and restores the same name (up to any NUL) and flag |
| RidenConfig.CStrOfPlainString | src/riden_config/riden_config.cpp:98 | a name without NUL characters is copied whole |
| RidenConfig.DecodedNameCommittable | src/riden_config/riden_config.cpp:35 | a name restored from a field holding its NUL is shorter than 100 bytes and can be committed again unchanged |
| RidenConfig.TzNameOverflows | src/riden_config/riden_config.cpp:98 | as written, `strcpy` writes past the 100-byte field exactly when the name (up to any NUL) has 100 bytes or more |
| RidenConfig.TzNameOverflowExample | src/riden_config/riden_config.cpp:98 | the 100-character name "AA…A" makes `strcpy` write 101 bytes into the 100-byte field |
| RidenConfig.BoundedCommitRoundTrip | src/riden_config/riden_config.cpp:93-108 | with a bounded copy any name can be committed, and `begin` restores the whole name when it is under 100 bytes and its first 99 bytes otherwise |
| RidenConfig.TimezoneSpecFirst | src/riden_config/riden_config.cpp:57-66 | the tz string of the first table entry with the name, and "" when there is none |
| RidenConfig.Eeprom.Load | src/riden_config/riden_config.cpp:31 | `EEPROM.begin` makes the RAM image a copy of flash |
| RidenConfig.Eeprom.Commit | src/riden_config/riden_config.cpp:101 | `EEPROM.commit` copies the RAM image to flash exactly when the flash write succeeds, and reports it |
| RidenConfig.Config.constructor | include/riden_config/riden_config.h:31-32 | empty name and clear flag |
| RidenConfig.Config.Commit | src/riden_config/riden_config.cpp:93-108 | puts magic, version 1, the name and the flag at offset 0 of the image and returns the flash write's result |
| RidenConfig.Config.CommitBounded | src/riden_config/riden_config.cpp:93-108 | `commit` with a bounded copy: the record read back from the image holds the bounded name and the flag, the rest of the image is untouched, and flash follows the write's result |
| RidenConfig.Config.Begin | src/riden_config/riden_config.cpp:29-45 | a valid stored record restores the name and flag; otherwise both reset to defaults and the defaults are committed; always true |
| RidenConfig.Config.SetTimezoneName | src/riden_config/riden_config.cpp:47-50 | changes the in-memory name only; nothing is stored |
| RidenConfig.Config.GetTimezoneName | src/riden_config/riden_config.cpp:52-55 | returns the in-memory name |
| RidenConfig.Config.GetTimezoneSpec | src/riden_config/riden_config.cpp:57-66 | the search loop returns `TimezoneSpec` of the table and the name |
| RidenConfig.Config.SetConfigPortalOnBoot | src/riden_config/riden_config.cpp:78-81 | sets the in-memory flag only |
| RidenConfig.Config.GetAndResetConfigPortalOnBoot | src/riden_config/riden_config.cpp:83-91 | when set: clears the flag, commits and returns true; when clear: returns false and writes nothing, whatever the name's length |
| RidenConfig.PortalFlagIsOneShot | src/riden_config/riden_config.cpp:78-91 | once set, the flag is reported exactly once, and the record then in flash reads back with the flag clear |
| RidenConfig.CommitThenBegin | src/riden_config/riden_config.cpp:29-45 | a committed configuration is restored by the next `begin` |
| RidenStatus.Elapsed | src/RidenStatus.cpp:52 | the unsigned difference is the number of milliseconds that take the 32-bit clock from `lasttime` to `now` |
| RidenStatus.ElapsedIsRealTime | src/RidenStatus.cpp:51-52 | for readings less than 2^32 ms apart the 32-bit difference equals the real elapsed time, across a wrap too |
| RidenStatus.LoopStepGating | src/RidenStatus.cpp:49-58 | `lasttime` moves to `now` exactly when more than 200 ms passed; a live read happens exactly when also started with a client, and the broadcast exactly when that read succeeds; `loop` never does a full read |
| RidenStatus.QuietWindow | src/RidenStatus.cpp:49-58 | after `loop` acted at time t0, any number of `loop` calls within the next 200 ms change nothing and call nothing |
| RidenStatus.ActsAfterInterval | src/RidenStatus.cpp:51-56 | once more than 200 ms have really passed, the next `loop` acts, even across a clock wrap |
| RidenStatus.StatusPoller.constructor | src/RidenStatus.h:33 | not started, `lasttime` 0 |
| RidenStatus.StatusPoller.UpdateStatus | src/RidenStatus.cpp:123-130 | a full read when asked for one and a live read otherwise, returning that read's result |
| RidenStatus.StatusPoller.SendStatus | src/RidenStatus.cpp:118-121 | one broadcast |
| RidenStatus.StatusPoller.Loop | src/RidenStatus.cpp:49-58 | the new state and calls are those of `LoopStep` |
| RidenStatus.StatusPoller.Start | src/RidenStatus.cpp:137-141 | started, and one full read whose result is ignored |
| RidenStatus.StatusPoller.End | src/RidenStatus.cpp:132-135 | clears `_started` and nothing else |
| Firmware.TrimKeepsHeading | src/main.cpp:305-308 | trimming an entry that starts with "##" keeps the heading and is idempotent |
| Firmware.StepShape | src/main.cpp:303-319 | one line keeps the entry under construction empty or headed, and emits one trimmed, headed entry exactly when a heading closes a started entry |
| Firmware.FoldShape | src/main.cpp:302-321 | the loop emits, with the final flush, one entry per heading line (plus one for an entry already begun), each trimmed and starting with "##" |
| Firmware.SummaryShape | src/main.cpp:299-325 | `scpi list` prints exactly one entry per heading of the file, each trimmed and starting with "##" |
| Firmware.FoldSections | src/main.cpp:302-325 | from any point in the file, the loop and its final flush print the entry under construction completed by the non-blank lines that follow it, then one entry per later heading |
| Firmware.EntryStartsWithHeading | src/main.cpp:305-318 | an entry begins with its heading line followed by " :" |
| Firmware.SummaryContents | src/main.cpp:299-325 | entry k of `scpi list` is the k-th heading line, " :", then each non-blank line under it as " <line>\n", the whole trimmed; lines before the first heading are not shown |
| Firmware.LeadingLinesDiscarded | src/main.cpp:313-319 | lines before the first heading change nothing |
| Firmware.Summarise | src/main.cpp:299-325 | the summary loop over the file prints exactly `Summary(content)` |
| Firmware.HostnameParts | src/main.cpp:130-132 | the hostname is the type, "-", and a digit string that reads back as the serial: 8 digits below 10^8, all digits above |
| Firmware.HostnameInjective | src/main.cpp:132 | two supplies of one type get the same hostname only when their serials agree |
| Firmware.HostnameLength | src/main.cpp:132 | the hostname is at most 11 characters longer than the type |
| Firmware.BootWait | src/main.cpp:121-126 | the wait calls `begin()` at least once and at most 51 times, stops at the first success or the first failure after 5000 ms, and every earlier call failed within 5000 ms |
| Firmware.SafemodeGating | src/main.cpp:262-375 | in safemode only help, freeram, reboot and boot act, and boot only there; safemode, scpi… and svc… act only outside it; help, freeram and reboot act alike in both modes |
| Firmware.Firmware.constructor | src/main.cpp:41-51 | the globals at power-on |
| Firmware.Firmware.StartServices | src/main.cpp:118-174 | sets `connected` to what the driver reports, names the device `Hostname(type, serial)` and starts the services when connected, otherwise starts WiFi without a hostname and blinks the LED |
| Firmware.Firmware.HandleScpi | src/main.cpp:286-342 | help text, the summary of the command file (or its failure message), or a claimed write of all but the last character, read and release, with the reply or the error texts |
| Firmware.Firmware.HandleSvc | src/main.cpp:343-372 | help text, status, nothing for stop, and `StartServices` plus status for start |
| Firmware.Firmware.DispatchInSafemode | src/main.cpp:255-378 | in safemode the console echoes the message and acts only on help, freeram, reboot (unmount, restart) and boot (leaves safemode) |
| Firmware.Firmware.DispatchInNormalMode | src/main.cpp:255-378 | outside safemode the console echoes, prints `Reply` and makes `CallsOf` the command; `safemode` creates the flag file exactly when the flash can be written |
| Firmware.Firmware.Dispatch | src/main.cpp:255-378 | the message handler's output, calls, flag file, restart and safemode bit for the command `Classify` reads in the current mode |
| Firmware.Firmware.FailsafeMode | src/main.cpp:381-389 | serves console messages in safemode until a `boot` (resumes) or a `reboot` (restarts); no earlier message was either; the flag file is untouched |
| Firmware.Firmware.PrepareBoot | src/main.cpp:408-439 | with the file system mounted, safemode is entered exactly when the flag file exists or cannot be created; a boot that proceeds leaves the flag file in place |
| Firmware.Firmware.CompleteBoot | src/main.cpp:453-469 | loads the configuration, starts the services, then removes a flag file and clears safemode |
| Firmware.Firmware.Setup | src/main.cpp:397-470 | a boot that proceeds ends out of safemode, with `connected` as the driver reports and no flag file |
| Firmware.Firmware.EnPinInterrupt | src/main.cpp:391-395 | records the pin level and that it changed |
| Firmware.Firmware.LoopEnPin | src/main.cpp:496-506 | a change is always acknowledged and reported; a change to high starts the services exactly when not connected |
| Firmware.InterruptedBootEntersSafemode | src/main.cpp:421-439 | a boot that gets past the failsafe check but never completes makes the next boot enter safemode |
| Firmware.CompletedBootSkipsSafemode | src/main.cpp:465-469 | after a completed boot the next boot does not enter safemode |
| HttpServer.NamesIdentifyState | src/riden_http_server/riden_http_server.cpp:65-87 | "OVP", "OCP", "None" and "Constant Voltage", "Constant Current", "Unknown" are each shown for exactly one kind of state |
| HttpServer.LanguageReadsBack | src/riden_http_server/riden_http_server.cpp:89-113 | ids 0-4 are shown by name; any other id as "Unknown (" + digits + ")" whose digits read back as the id |
| HttpServer.LanguageInjective | src/riden_http_server/riden_http_server.cpp:89-113 | different language ids are shown as different texts |
| HttpServer.FirmwareVersionFits | src/riden_http_server/riden_http_server.cpp:769-777 | the version text is at most 6 characters, so it fits the 10-byte buffer, and its parts around the only dot read back as v/100 and v%100 |
| HttpServer.FirmwareVersionInjective | src/riden_http_server/riden_http_server.cpp:775 | different version registers are shown as different texts |
| HttpServer.SerialNumberOverflows | src/riden_http_server/riden_http_server.cpp:779-786 | as written, `%08u` into `char[10]` overflows exactly for serial numbers of at least 10^9 |
| HttpServer.SerialNumberOverflowExample | src/riden_http_server/riden_http_server.cpp:781-784 | serial 4294967295 makes `sprintf` write 11 bytes into the 10-byte buffer |
| HttpServer.SerialNumberFits | src/riden_http_server/riden_http_server.cpp:779-786 | with an 11-byte buffer every serial fits, and the text has at least 8 digits (exactly 8 below 10^8) that read back as the serial |
| HttpServer.SerialNumberInjective | src/riden_http_server/riden_http_server.cpp:784 | different serial numbers are shown as different texts |
| HttpServer.DisconnectRouting | src/riden_http_server/riden_http_server.cpp:429-445 | nothing is disconnected when the address does not parse or the protocol is none of "SCPI RAW", "Modbus TCP", "VXI-11"; otherwise exactly the named server is asked, for the parsed address |
| HttpServer.Server.constructor | src/riden_http_server/riden_http_server.cpp:115-122 | the server keeps the bridge and the global WiFi manager and configuration |
| HttpServer.Server.HtmlProcessorReplacesOnlySsid | src/riden_http_server/riden_http_server.cpp:244-250 | `WIFI_SSID` becomes the stored ssid and any other variable "" |
| HttpServer.Server.PsuConfigProcessorReplacesOnlyItsVariables | src/riden_http_server/riden_http_server.cpp:398-407 | `TIMEZONE` becomes the configured name, `UARTBAUDRATE` a decimal text that reads back as the baud rate, anything else "" |
| HttpServer.Server.HandleSaveWiFi | src/riden_http_server/riden_http_server.cpp:206-229 | 400 and nothing changed unless both arguments are present; otherwise the credentials are set and saved, then 200 followed by unmount and restart, or 500 when the file cannot be written |
| HttpServer.Server.HandleClearWiFi | src/riden_http_server/riden_http_server.cpp:231-241 | as written: when the file is removed the device restarts inside `clearCredentials` and no reply is sent; otherwise the reply is 500 and nothing changes; 200 is never sent |
| HttpServer.Server.HandleClearWiFiReplyFirst | src/riden_http_server/riden_http_server.cpp:231-241 | replying before the restart: 200 exactly when the file existed, then the file is gone, the AP erased, the file system unmounted and the device restarted; 500 with nothing changed otherwise |
| HttpServer.Server.HandleConfigPost | src/riden_http_server/riden_http_server.cpp:415-427 | the `timezone` argument becomes the configured name and the stored record reads back as that name (cut to 99 bytes when longer) with the portal flag kept; the page redirects to itself |
| HttpServer.Server.HandleDisconnectClientPost | src/riden_http_server/riden_http_server.cpp:429-445 | the SCPI or VXI-11 server is asked, or the bridge's slot found by `getMaster` is nulled, exactly as `DisconnectTarget` routes; always redirects to "/" |
| HttpServer.SavedCredentialsReadBack | src/riden_http_server/riden_http_server.cpp:206-229 | credentials saved through the web page read back as the trimmed arguments when neither holds a newline |

## Left out

- The wait loops are abstract oracles, with no timeouts or leases the code does not have:
  - the busy-wait for the RTU channel (`riden_modbus_bridge.cpp:85-88`);
  - the keep-alive spin until link-up or timeout (`WifiManager.cpp:91-92`);
  - the `delay` calls, which become logged `Delay` calls or the `elapsedAt` clock of the boot wait.
- FreeRTOS: `keepAlive` runs on its own task forever; the model has one round (`KeepAliveIteration`) and any finite run (`KeepAliveLog`). Task creation is a logged call.
- Interrupts and `volatile`: `EnPinInterrupt` and `LoopEnPin` are separate steps, so races between the interrupt handler and `loop` are not modelled.
- Likewise, the WebSerial messages that arrive while `failsafeMode` spins are a given sequence.
- `getMaster` and the client sockets belong to the modbus library:
  - `GetMaster` assumes it finds the first connected slot with the address;
  - `flush`/`delete` of the socket is reduced to nulling the slot.
- The bridge header does not match the .cpp (reference member, no `disconnect_client`); the model follows the .cpp.
- `RidenConfig.Decode`: a `tz_name` field with no NUL is cut at 100 bytes. C would read past the field, so `DecodedNameCommittable` asks for the NUL.
- The bytes of the `tz_name` field after its NUL come from an uninitialised stack variable in `commit`. They are the `junk` parameter.
- `RidenConfig.TimezoneSpec` compares names with `==`; the firmware uses `String::compareTo`. The two differ only for names holding a NUL.
- The `TIMEZONES` table (`timezones.h`) is not part of this model; it is a parameter. `get_number_of_timezones` and `get_timezone` only read it.
- `riden_config.get_uart_baudrate()` and `set_uart_baudrate()` are used by the configuration page and its POST handler but declared nowhere. `PsuConfigProcessor` takes the baud rate as a parameter, and `HandleConfigPost` leaves out the `uart_baudrate` argument and its `strtoull` parse.
- `HttpServer.Server.HandleConfigPost` commits with the bounded copy (`CommitBounded`), the correction in "## Findings"; the firmware's `strcpy` there overflows for long names.
- `RidenStatus`:
  - `lasttime` is a file-level static; it is modelled as a field of the single poller, starting at 0;
  - the JSON serialisation (`_serializeAllValues`) and the values read are not modelled;
  - reads and broadcasts are logged calls.
- Floating point (the voltage, current and power texts, temperatures), JSON, HTML page rendering and the stale handler code are not modelled.
- Foreign libraries are not modelled: `SetupWifi`'s mDNS and SNTP set-up, `DisplayServicesStatus`'s text, `PrintFreeRam`, OTA, the LED ticker and WebSerial itself.
- The debug timing print of the console is left out.
- `Firmware.Hostname` does not model the 100-byte `hostname` buffer. `HostnameLength` shows that a type name under 88 characters fits.
- `Firmware.Firmware.HandleScpi` writes `subcommand.length() - 1` characters, as written. `RidenScpi::write` is not part of this model, so whether the last character is meant to be dropped is not decided.
- `HttpServer.Server.HandleDisconnectClientPost` requires the bridge to have been begun for the Modbus TCP route. The firmware would dereference a null `_modbus_tcp` otherwise, for example after `StartServices` found no supply.
- `IPAddress::fromString` is an oracle (the parsed address or nothing); the SCPI and VXI-11 servers' `disconnect_client` are logged calls.
- The protection and output-mode enums come from the unshown modbus library. Values other than OVP/OCP and CV/CC are carried as codes.
- `HttpServer.GetFirmwareVersion` and `GetSerialNumber` model the buffer contents and overflow, not the aliasing of the static buffers between calls.

## Findings

| source | as written | input that shows it | evidently intended | confidence | as-written member | corrected member |
|---|---|---|---|---|---|---|
| src/riden_http_server/riden_http_server.cpp:781-784 | `sprintf(serial_number_string, "%08u", serial_number)` into `char serial_number_string[10]` | serial number 4294967295 (any serial of at least 10^9): ten digits plus the NUL are 11 bytes, one past the buffer | a buffer that holds any `uint32` printed with `%08u`, i.e. 11 bytes | not executed | HttpServer.SerialNumberOverflowExample | HttpServer.SerialNumberFits |
| src/riden_config/riden_config.cpp:98 | `strcpy(config.tz_name, tz_name.c_str())` into `char tz_name[100]`, with any `timezone` argument passed on by `handle_config_post` (src/riden_http_server/riden_http_server.cpp:417-423) | a `timezone` argument of 100 characters "AA…A": `strcpy` writes 101 bytes into the 100-byte field | a bounded copy (or a length check) so that the name and its NUL stay within the field | not executed | RidenConfig.TzNameOverflowExample | RidenConfig.BoundedCommitRoundTrip |
| src/riden_http_server/riden_http_server.cpp:233-236 | the 200 reply "Credentials cleared." is sent after `clearCredentials()` returns true, but `clearCredentials` calls `ESP.restart()` before its `return true` (src/WifiManager.cpp:35-36) | any request to clear stored credentials while the file exists: the device restarts and the client gets no reply | reply first and restart afterwards, as `_handleSaveWiFi` does | not executed | HttpServer.Server.HandleClearWiFi | HttpServer.Server.HandleClearWiFiReplyFirst |
