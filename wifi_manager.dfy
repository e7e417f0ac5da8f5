/**
 * The WiFi credential manager and uplink supervisor (`WifiManagerClass`).
 *
 * Credentials live in a two-line text file on LittleFS. `begin` reads them
 * and either joins the network in station mode or, when they are missing or
 * incomplete, opens the fallback access point. Once connected, a background
 * task runs `keepAlive` forever: every round it either sees the link up and
 * sleeps 10 s, or restarts the station connection, waits for it at most
 * 20 s, and sleeps 30 s when that failed.
 *
 * The WiFi driver is an oracle: `status(k)` is what the k-th call of
 * `WiFi.status()` in an operation reports (true = `WL_CONNECTED`). The calls
 * the manager makes into the driver, the RTOS and the chip are logged in
 * `calls`.
 */
module WifiManager {
  import opened Arduino
  import FlashFs

  const CredentialsFile := "/wifi_credentials.txt"
  const ApSsid := "ESP32_AP"
  /** `WIFI_TIMEOUT_MS`: how long a keep-alive reconnect waits for the link. */
  const WifiTimeoutMs := 20000
  /** `WIFI_RECOVER_TIME_MS`: how long keep-alive sleeps after a failed reconnect. */
  const WifiRecoverTimeMs := 30000
  /** How long keep-alive sleeps while the link is up. */
  const KeepAlivePollMs := 10000
  /** `connect` polls the link at most this many times, one second apart. */
  const MaxConnectAttempts := 10

  datatype WifiCall =
    | ModeSta                                      // WiFi.mode(WIFI_STA)
    | BeginSta(ssid: string, password: string)     // WiFi.begin(ssid, password)
    | SoftAp(ssid: string)                         // WiFi.softAP(ssid)
    | Delay(ms: nat)                               // delay / vTaskDelay
    | WaitForLink(timeoutMs: nat)                  // spin until connected or the timeout passes
    | SpawnKeepAlive                               // xTaskCreatePinnedToCore(keepWifiAlive, ...)
    | EraseAp                                      // WiFi.eraseAP()
    | FsEnd                                        // LittleFS.end()
    | Restart                                      // ESP.restart()

  // ---------------------------------------------------------------------
  // The credentials file
  // ---------------------------------------------------------------------

  /** What `readCredentials` makes of the file: its first two lines, trimmed. */
  function ParseCredentials(content: string): (string, string) {
    var (first, rest) := ReadUntil(content, '\n');
    var (second, _) := ReadUntil(rest, '\n');
    (Trim(first), Trim(second))
  }

  /** What `saveCredentials` writes: each field followed by `println`'s "\r\n". */
  function FormatCredentials(ssid: string, password: string): string {
    ssid + "\r\n" + password + "\r\n"
  }

  /**
   * Saving and reading back yields the trimmed fields, as long as neither
   * contains a line break (the `'\r'` that `println` adds is removed by `trim`).
   */
  lemma CredentialsRoundTrip(ssid: string, password: string)
    requires '\n' !in ssid && '\n' !in password
    ensures ParseCredentials(FormatCredentials(ssid, password)) == (Trim(ssid), Trim(password))
  {
    var a := ssid + ['\r'];
    var b := password + ['\r'];
    assert FormatCredentials(ssid, password) == a + ['\n'] + (b + ['\n']);
    assert '\n' !in a by { assert forall i :: 0 <= i < |ssid| ==> a[i] == ssid[i]; }
    assert '\n' !in b by { assert forall i :: 0 <= i < |password| ==> b[i] == password[i]; }
    ReadUntilWritten(a, '\n', b + ['\n']);
    ReadUntilWritten(b, '\n', []);
    assert b + ['\n'] == b + ['\n'] + [];
    TrimAppendSpace(ssid, '\r');
    TrimAppendSpace(password, '\r');
  }

  // ---------------------------------------------------------------------
  // connect and keepAlive, as logs of calls
  // ---------------------------------------------------------------------

  /**
   * The number of one-second waits `connect` makes: it stops at the first
   * poll that reports the link up, or after `MaxConnectAttempts` waits.
   */
  function AttemptsFrom(status: nat -> bool, k: nat): (n: nat)
    requires k <= MaxConnectAttempts
    ensures k <= n <= MaxConnectAttempts
    ensures forall j :: k <= j < n ==> !status(j)
    ensures n < MaxConnectAttempts ==> status(n)
    decreases MaxConnectAttempts - k
  {
    if k == MaxConnectAttempts || status(k) then k else AttemptsFrom(status, k + 1)
  }

  function Attempts(status: nat -> bool): nat {
    AttemptsFrom(status, 0)
  }

  /** The calls `connect` makes when the driver reports `status`. */
  function ConnectLog(ssid: string, password: string, status: nat -> bool): seq<WifiCall> {
    var n := Attempts(status);
    [ModeSta, Delay(200), BeginSta(ssid, password)]
      + seq(n, _ => Delay(1000))
      + (if status(n + 1) then [SpawnKeepAlive] else [SoftAp(ApSsid)])
  }

  /**
   * `connect` starts one station connection with the given credentials, waits
   * at most ten seconds for it, and then either spawns the keep-alive task or
   * opens the access point, never both.
   */
  lemma ConnectLogShape(ssid: string, password: string, status: nat -> bool)
    ensures var log := ConnectLog(ssid, password, status);
      var n := Attempts(status);
      && n <= MaxConnectAttempts
      && |log| == 4 + n
      && (forall i :: 0 <= i < |log| && log[i].BeginSta? ==> i == 2 && log[i] == BeginSta(ssid, password))
      && (forall i :: 0 <= i < |log| && log[i].Delay? ==> log[i].ms <= 1000)
      && (log[|log| - 1] == SpawnKeepAlive <==> status(n + 1))
      && (log[|log| - 1] == SoftAp(ApSsid) <==> !status(n + 1))
      && (forall i :: 0 <= i < |log| - 1 ==> !log[i].SpawnKeepAlive? && !log[i].SoftAp?)
  {
  }

  datatype KeepAliveOutcome = StillConnected | Reconnected | BackedOff

  /** The calls of one round of `keepAlive`'s endless loop. */
  function KeepAliveRound(ssid: string, password: string, upAtStart: bool, upAfterWait: bool): seq<WifiCall> {
    if upAtStart then
      [Delay(KeepAlivePollMs)]
    else
      [ModeSta, BeginSta(ssid, password), WaitForLink(WifiTimeoutMs)]
      + (if upAfterWait then [] else [Delay(WifiRecoverTimeMs)])
  }

  /**
   * A stretch of `keepAlive` rounds; `rounds[i]` is what the driver reports
   * at the start of round i and after its bounded wait.
   */
  function KeepAliveLog(ssid: string, password: string, rounds: seq<(bool, bool)>): seq<WifiCall> {
    if rounds == [] then
      []
    else
      KeepAliveLog(ssid, password, rounds[..|rounds| - 1])
      + KeepAliveRound(ssid, password, rounds[|rounds| - 1].0, rounds[|rounds| - 1].1)
  }

  function Reconnects(rounds: seq<(bool, bool)>): nat {
    if rounds == [] then 0 else Reconnects(rounds[..|rounds| - 1]) + (if rounds[|rounds| - 1].0 then 0 else 1)
  }

  function FailedReconnects(rounds: seq<(bool, bool)>): nat {
    if rounds == [] then
      0
    else
      FailedReconnects(rounds[..|rounds| - 1])
      + (if !rounds[|rounds| - 1].0 && !rounds[|rounds| - 1].1 then 1 else 0)
  }

  /** How many station connections a log starts. */
  function CountBegins(log: seq<WifiCall>): nat {
    if log == [] then 0 else (if log[0].BeginSta? then 1 else 0) + CountBegins(log[1..])
  }

  /** How many 30 s back-off sleeps a log holds. */
  function CountBackOffs(log: seq<WifiCall>): nat {
    if log == [] then 0 else (if log[0] == Delay(WifiRecoverTimeMs) then 1 else 0) + CountBackOffs(log[1..])
  }

  lemma {:induction false} CountsAppend(a: seq<WifiCall>, b: seq<WifiCall>)
    ensures CountBegins(a + b) == CountBegins(a) + CountBegins(b)
    ensures CountBackOffs(a + b) == CountBackOffs(a) + CountBackOffs(b)
  {
    if a == [] {
      assert a + b == b;
    } else {
      assert (a + b)[0] == a[0];
      assert (a + b)[1..] == a[1..] + b;
      CountsAppend(a[1..], b);
    }
  }

  lemma RoundCounts(ssid: string, password: string, upAtStart: bool, upAfterWait: bool)
    ensures var round := KeepAliveRound(ssid, password, upAtStart, upAfterWait);
      && CountBegins(round) == (if upAtStart then 0 else 1)
      && CountBackOffs(round) == (if !upAtStart && !upAfterWait then 1 else 0)
  {
    var round := KeepAliveRound(ssid, password, upAtStart, upAfterWait);
    if !upAtStart {
      var tail := if upAfterWait then [] else [Delay(WifiRecoverTimeMs)];
      assert round[1..] == [BeginSta(ssid, password), WaitForLink(WifiTimeoutMs)] + tail;
      assert round[1..][1..] == [WaitForLink(WifiTimeoutMs)] + tail;
      assert round[1..][1..][1..] == tail;
      assert CountBegins(tail) == 0 && CountBackOffs(tail) == |tail| by {
        if tail != [] { assert tail[1..] == []; }
      }
      assert CountBegins(round[1..][1..]) == 0;
      assert CountBegins(round[1..]) == 1;
      assert CountBackOffs(round[1..]) == |tail|;
    }
  }

  /**
   * `keepAlive` reconnects only when it finds the link down, always with the
   * stored credentials, and every failed reconnect is followed by its own
   * 30 s back-off: there is no tight retry loop.
   */
  lemma {:induction false} KeepAliveNoRetryStorm(ssid: string, password: string, rounds: seq<(bool, bool)>)
    ensures var log := KeepAliveLog(ssid, password, rounds);
      && CountBegins(log) == Reconnects(rounds)
      && CountBackOffs(log) == FailedReconnects(rounds)
      && (forall i :: 0 <= i < |log| && log[i].BeginSta? ==> log[i] == BeginSta(ssid, password))
      && (forall i :: 0 <= i < |log| ==> !log[i].Restart? && !log[i].SoftAp?)
  {
    if rounds != [] {
      var init := rounds[..|rounds| - 1];
      var last := rounds[|rounds| - 1];
      KeepAliveNoRetryStorm(ssid, password, init);
      var prev := KeepAliveLog(ssid, password, init);
      var round := KeepAliveRound(ssid, password, last.0, last.1);
      CountsAppend(prev, round);
      RoundCounts(ssid, password, last.0, last.1);
      var log := prev + round;
      forall i | 0 <= i < |log|
        ensures log[i].BeginSta? ==> log[i] == BeginSta(ssid, password)
        ensures !log[i].Restart? && !log[i].SoftAp?
      {
        if i >= |prev| {
          assert log[i] == round[i - |prev|];
        }
      }
    }
  }

  // ---------------------------------------------------------------------
  // The manager
  // ---------------------------------------------------------------------

  class Manager {
    var ssid: string
    var password: string
    var calls: seq<WifiCall>
    const fs: FlashFs.Fs

    constructor (fs: FlashFs.Fs)
      ensures ssid == "" && password == "" && calls == [] && this.fs == fs
    {
      ssid := "";
      password := "";
      calls := [];
      this.fs := fs;
    }

    /**
     * `readCredentials`: false, fields untouched, when the file cannot be
     * opened; otherwise the fields become the file's trimmed first two lines
     * (even when incomplete) and the result says whether both are non-empty.
     */
    method ReadCredentials() returns (ok: bool)
      modifies this
      ensures !(fs.mounted && CredentialsFile in fs.files) ==>
        !ok && ssid == old(ssid) && password == old(password)
      ensures fs.mounted && CredentialsFile in fs.files ==>
        (ssid, password) == ParseCredentials(fs.files[CredentialsFile])
        && (ok <==> ssid != "" && password != "")
      ensures calls == old(calls)
    {
      var content := fs.Read(CredentialsFile);
      if content.None? {
        return false;
      }
      var (first, rest) := ReadUntil(content.value, '\n');
      var (second, _) := ReadUntil(rest, '\n');
      ssid := Trim(first);
      password := Trim(second);
      ok := ssid != "" && password != "";
    }

    /** `saveCredentials`: writes the ssid line and the password line; false only when the file cannot be opened. */
    method SaveCredentials() returns (ok: bool)
      modifies fs
      ensures ok <==> old(fs.mounted && fs.writable)
      ensures fs.files == if ok then old(fs.files)[CredentialsFile := FormatCredentials(ssid, password)]
                          else old(fs.files)
      ensures fs.mounted == old(fs.mounted) && fs.writable == old(fs.writable)
    {
      ok := fs.Write(CredentialsFile, FormatCredentials(ssid, password));
    }

    /** `setCredentials`: changes the in-memory fields only. */
    method SetCredentials(newSsid: string, newPassword: string)
      modifies this
      ensures ssid == newSsid && password == newPassword && calls == old(calls)
    {
      ssid := newSsid;
      password := newPassword;
    }

    /**
     * `clearCredentials`: when the file can be removed, erases the stored
     * access point, unmounts and restarts; otherwise (no file included)
     * returns false and changes nothing. `ESP.restart()` does not return,
     * so a true result stands for the restart: no caller code runs after it.
     */
    method ClearCredentials() returns (ok: bool)
      modifies this, fs
      ensures ok <==> old(fs.mounted) && CredentialsFile in old(fs.files)
      ensures ok ==> fs.files == old(fs.files) - {CredentialsFile} && !fs.mounted
                     && calls == old(calls) + [EraseAp, FsEnd, Restart]
      ensures !ok ==> fs.files == old(fs.files) && fs.mounted == old(fs.mounted) && calls == old(calls)
      ensures ssid == old(ssid) && password == old(password)
    {
      ok := fs.Remove(CredentialsFile);
      if ok {
        calls := calls + [EraseAp];
        fs.End();
        calls := calls + [FsEnd, Restart];
      }
    }

    /** `startAPMode`. */
    method StartApMode()
      modifies this
      ensures calls == old(calls) + [SoftAp(ApSsid)]
      ensures ssid == old(ssid) && password == old(password)
    {
      calls := calls + [SoftAp(ApSsid)];
    }

    /**
     * `connect`: joins the network with the stored credentials, polls the
     * link once a second at most ten times, then spawns the keep-alive task
     * if the link is up and opens the access point otherwise.
     */
    method Connect(status: nat -> bool) returns (connected: bool)
      modifies this
      ensures connected == status(Attempts(status) + 1)
      ensures calls == old(calls) + ConnectLog(ssid, password, status)
      ensures ssid == old(ssid) && password == old(password)
    {
      calls := calls + [ModeSta, Delay(200), BeginSta(ssid, password)];
      var attempts := 0;
      var up := status(0);
      while !up && attempts < MaxConnectAttempts
        invariant attempts <= MaxConnectAttempts
        invariant up == status(attempts)
        invariant ssid == old(ssid) && password == old(password)
        invariant forall j :: 0 <= j < attempts ==> !status(j)
        invariant calls == old(calls) + [ModeSta, Delay(200), BeginSta(ssid, password)]
                           + seq(attempts, _ => Delay(1000))
      {
        calls := calls + [Delay(1000)];
        attempts := attempts + 1;
        up := status(attempts);
      }
      assert attempts == Attempts(status) by {
        AttemptsIsFirstUp(status, attempts);
      }
      connected := status(attempts + 1);
      if connected {
        calls := calls + [SpawnKeepAlive];
      } else {
        StartApMode();
      }
      AppendAssoc(old(calls), [ModeSta, Delay(200), BeginSta(ssid, password)], seq(attempts, _ => Delay(1000)));
      AppendAssoc(old(calls), [ModeSta, Delay(200), BeginSta(ssid, password)] + seq(attempts, _ => Delay(1000)),
        if connected then [SpawnKeepAlive] else [SoftAp(ApSsid)]);
    }

    /**
     * `begin`: connects when the stored credentials are valid and opens the
     * access point otherwise.
     */
    method Begin(status: nat -> bool)
      modifies this
      ensures var readable := fs.mounted && CredentialsFile in fs.files;
        var valid := readable && ssid != "" && password != "";
        && (readable ==> (ssid, password) == ParseCredentials(fs.files[CredentialsFile]))
        && (!readable ==> ssid == old(ssid) && password == old(password))
        && calls == old(calls) + (if valid then ConnectLog(ssid, password, status) else [SoftAp(ApSsid)])
    {
      var ok := ReadCredentials();
      if ok {
        var _ := Connect(status);
      } else {
        StartApMode();
      }
    }

    /**
     * One round of `keepAlive`: with the link up it only sleeps 10 s;
     * otherwise it restarts the station connection with the stored
     * credentials, waits for it at most `WIFI_TIMEOUT_MS`, and sleeps
     * `WIFI_RECOVER_TIME_MS` when the link is still down.
     */
    method KeepAliveIteration(upAtStart: bool, upAfterWait: bool) returns (outcome: KeepAliveOutcome)
      modifies this
      ensures calls == old(calls) + KeepAliveRound(ssid, password, upAtStart, upAfterWait)
      ensures outcome == if upAtStart then StillConnected else if upAfterWait then Reconnected else BackedOff
      ensures ssid == old(ssid) && password == old(password)
    {
      if upAtStart {
        calls := calls + [Delay(KeepAlivePollMs)];
        return StillConnected;
      }
      calls := calls + [ModeSta, BeginSta(ssid, password), WaitForLink(WifiTimeoutMs)];
      if !upAfterWait {
        calls := calls + [Delay(WifiRecoverTimeMs)];
        return BackedOff;
      }
      outcome := Reconnected;
    }
  }

  /** A loop that stops at `n` has seen exactly the polls `Attempts` counts. */
  lemma AttemptsIsFirstUp(status: nat -> bool, n: nat)
    requires n <= MaxConnectAttempts
    requires forall j :: 0 <= j < n ==> !status(j)
    requires n < MaxConnectAttempts ==> status(n)
    ensures Attempts(status) == n
  {
  }
}
