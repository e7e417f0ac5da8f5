/**
 * The boot and console logic of the firmware's main program: the summary of
 * `/SCPI_COMMANDS.md` printed by `scpi list`, the WebSerial command
 * dispatcher and its safemode gating, the failsafe flag-file protocol of
 * `setup`, `StartServices` with its bounded wait for the power supply, and
 * the EN-pin handling of `loop`.
 *
 * The services started here (SCPI, the Modbus bridge, VXI-11, RPC bind,
 * the status poller, mDNS, the LED ticker) are logged as `FwCall`s; what
 * the console prints is the list of lines `out`. The Modbus driver and the
 * SCPI handler are oracles (`ModbusProbe`, `Env`).
 */
module Firmware {
  import opened Arduino
  import FlashFs

  const FailsafeFile := "/failsafe.tmp"
  const CommandsFile := "/SCPI_COMMANDS.md"
  /** How long `StartServices` waits for the power supply to answer. */
  const BootWaitMs := 5000
  /** The pause between two attempts of `riden_modbus->begin()`. */
  const BootRetryDelayMs := 100
  /** The most attempts the wait can make: 5000 ms at 100 ms per failed attempt, plus the last. */
  const MaxBootAttempts := 51
  /** The width `%08u` pads the serial number to. */
  const SerialDigits := 8

  // ---------------------------------------------------------------------
  // `scpi list`: the summary of the command reference
  // ---------------------------------------------------------------------

  /** A Markdown heading of level two or deeper: the line starts with "##". */
  predicate IsHeading(s: string) {
    |s| >= 2 && s[0] == '#' && s[1] == '#'
  }

  /** The lines `readStringUntil('\n')` returns while `file.available()`. */
  function Lines(s: string): seq<string>
    decreases |s|
  {
    if s == [] then []
    else
      ReadUntilProgress(s, '\n');
      var r := ReadUntil(s, '\n');
      [r.0] + Lines(r.1)
  }

  /**
   * One line of the summary loop: the entry being built (`command`) after
   * the line, and the entries printed for it. The line is trimmed; a
   * heading prints the entry so far (trimmed, when there is one) and starts
   * `"<heading> :"`; any other non-empty line is appended to the current
   * entry as `" <line>\n"`, and is dropped when no entry has started.
   */
  function Step(command: string, line: string): (string, seq<string>) {
    var tmp := Trim(line);
    if IsHeading(tmp) then
      (tmp + " :", if command != "" then [Trim(command)] else [])
    else if tmp != "" && command != "" then
      (command + " " + tmp + "\n", [])
    else
      (command, [])
  }

  /** The summary loop over a sequence of lines: the last entry being built and the entries printed. */
  function Fold(command: string, lines: seq<string>): (string, seq<string>)
    decreases |lines|
  {
    if lines == [] then (command, [])
    else
      var first := Step(command, lines[0]);
      var rest := Fold(first.0, lines[1..]);
      (rest.0, first.1 + rest.1)
  }

  /** After the loop: the last entry, trimmed, unless it is empty. */
  function Finish(command: string): seq<string> {
    var t := Trim(command);
    if t != "" then [t] else []
  }

  /** Every entry `scpi list` prints for a command reference holding `content`. */
  function Summary(content: string): seq<string> {
    var f := Fold("", Lines(content));
    f.1 + Finish(f.0)
  }

  /** The number of lines that are headings once trimmed. */
  function Headings(lines: seq<string>): nat
    decreases |lines|
  {
    if lines == [] then 0
    else (if IsHeading(Trim(lines[0])) then 1 else 0) + Headings(lines[1..])
  }

  /** Trimming an entry that starts with a heading leaves a non-empty text that still starts with it. */
  lemma TrimKeepsHeading(s: string)
    requires IsHeading(s)
    ensures IsHeading(Trim(s)) && Trim(s) == Trim(Trim(s))
  {
    assert !IsSpace(s[0]) && !IsSpace(s[1]);
    assert TrimStart(s) == s;
    var r := TrimEnd(s);
    assert |r| >= 2;
    assert r[0] == s[0] && r[1] == s[1];
    TrimIdempotent(s);
  }

  /** One line keeps the entry being built empty or headed, and prints one entry for a heading that closes one. */
  lemma StepShape(command: string, line: string)
    requires command == "" || IsHeading(command)
    ensures var st := Step(command, line);
      && (st.0 == "" || IsHeading(st.0))
      && (st.0 == "" <==> command == "" && !IsHeading(Trim(line)))
      && |st.1| == (if IsHeading(Trim(line)) && command != "" then 1 else 0)
      && (forall i :: 0 <= i < |st.1| ==> IsHeading(st.1[i]) && Trim(st.1[i]) == st.1[i])
  {
    var tmp := Trim(line);
    var st := Step(command, line);
    var none: seq<string> := [];
    if IsHeading(tmp) {
      assert IsHeading(tmp + " :");
      if command != "" {
        TrimKeepsHeading(command);
        var e := Trim(command);
        assert st.1 == [e];
        assert IsHeading(e) && Trim(e) == e;
      } else {
        assert st.1 == none;
      }
    } else {
      assert st.1 == none;
      if tmp != "" && command != "" {
        assert IsHeading(command + " " + tmp + "\n");
      }
    }
  }

  /**
   * The loop keeps the entry being built either empty or starting with a
   * heading; every printed entry starts with a heading and is trimmed; and
   * it prints one entry per heading, plus one for an entry already begun.
   */
  lemma {:induction false} FoldShape(command: string, lines: seq<string>)
    requires command == "" || IsHeading(command)
    decreases |lines|
    ensures var f := Fold(command, lines);
      && (f.0 == "" || IsHeading(f.0))
      && (forall i :: 0 <= i < |f.1| ==> IsHeading(f.1[i]) && Trim(f.1[i]) == f.1[i])
      && |f.1| + |Finish(f.0)| == Headings(lines) + (if command == "" then 0 else 1)
  {
    if lines == [] {
      if command != "" {
        TrimKeepsHeading(command);
      }
    } else {
      var first := Step(command, lines[0]);
      StepShape(command, lines[0]);
      FoldShape(first.0, lines[1..]);
      var rest := Fold(first.0, lines[1..]);
      assert Fold(command, lines) == (rest.0, first.1 + rest.1);
      assert Headings(lines) == (if IsHeading(Trim(lines[0])) then 1 else 0) + Headings(lines[1..]);
    }
  }

  /**
   * `scpi list` prints exactly one entry per heading of the reference, and
   * each entry is trimmed and starts with its heading.
   */
  lemma SummaryShape(content: string)
    ensures |Summary(content)| == Headings(Lines(content))
    ensures forall i :: 0 <= i < |Summary(content)| ==>
      IsHeading(Summary(content)[i]) && Trim(Summary(content)[i]) == Summary(content)[i]
  {
    var f := Fold("", Lines(content));
    FoldShape("", Lines(content));
    if f.0 != "" {
      TrimKeepsHeading(f.0);
    }
  }

  /** The loop over a line followed by more lines. */
  lemma FoldCons(command: string, line: string, lines: seq<string>)
    ensures var first := Step(command, line);
      var rest := Fold(first.0, lines);
      Fold(command, [line] + lines) == (rest.0, first.1 + rest.1)
  {
    assert ([line] + lines)[0] == line;
    assert ([line] + lines)[1..] == lines;
  }

  /** A line that is not a heading, read before any entry has begun, changes nothing. */
  lemma LeadingLineDiscarded(line: string, rest: seq<string>)
    requires !IsHeading(Trim(line))
    ensures Fold("", [line] + rest) == Fold("", rest)
  {
    var none: seq<string> := [];
    assert Step("", line) == ("", none);
    FoldCons("", line, rest);
    assert none + Fold("", rest).1 == Fold("", rest).1;
  }

  /** Lines before the first heading are discarded: they neither start nor join an entry. */
  lemma {:induction false} LeadingLinesDiscarded(pre: seq<string>, lines: seq<string>)
    requires Headings(pre) == 0
    ensures Fold("", pre + lines) == Fold("", lines)
  {
    if pre != [] {
      assert pre == [pre[0]] + pre[1..];
      AppendAssoc([pre[0]], pre[1..], lines);
      LeadingLineDiscarded(pre[0], pre[1..] + lines);
      LeadingLinesDiscarded(pre[1..], lines);
    } else {
      assert pre + lines == lines;
    }
  }

  // The sections of the reference, defined without the loop

  /** A heading line of the reference and the non-blank lines under it, all trimmed. */
  datatype Section = Section(heading: string, body: seq<string>)

  /** The trimmed non-blank lines up to the next heading. */
  function BodyLines(lines: seq<string>): seq<string>
    decreases |lines|
  {
    if lines == [] || IsHeading(Trim(lines[0])) then []
    else if Trim(lines[0]) == "" then BodyLines(lines[1..])
    else [Trim(lines[0])] + BodyLines(lines[1..])
  }

  /** Every heading line, trimmed, with the lines under it, in the order of the reference. */
  function Sections(lines: seq<string>): seq<Section>
    decreases |lines|
  {
    if lines == [] then []
    else if IsHeading(Trim(lines[0])) then [Section(Trim(lines[0]), BodyLines(lines[1..]))] + Sections(lines[1..])
    else Sections(lines[1..])
  }

  /** Body lines as an entry shows them: each after a space and before a newline. */
  function Joined(body: seq<string>): string
    decreases |body|
  {
    if body == [] then "" else " " + body[0] + "\n" + Joined(body[1..])
  }

  /** The text shown for a section: `"<heading> : <line>\n <line>\n…"`, trimmed. */
  function EntryText(sec: Section): string {
    Trim(sec.heading + " :" + Joined(sec.body))
  }

  function EntryTexts(secs: seq<Section>): seq<string>
    decreases |secs|
  {
    if secs == [] then [] else [EntryText(secs[0])] + EntryTexts(secs[1..])
  }

  /** What the loop prints from `lines` on while `command` is being built, the final flush included. */
  function Printed(command: string, lines: seq<string>): seq<string> {
    var f := Fold(command, lines);
    f.1 + Finish(f.0)
  }

  /** The current entry completed by the body lines that follow it, then one entry per section. */
  function Expected(command: string, lines: seq<string>): seq<string> {
    (if command == "" then [] else [Trim(command + Joined(BodyLines(lines)))]) + EntryTexts(Sections(lines))
  }

  /** The loop's output from a line on: what that line prints, then the output from the next. */
  lemma PrintedStep(command: string, lines: seq<string>)
    requires lines != []
    ensures var st := Step(command, lines[0]);
      Printed(command, lines) == st.1 + Printed(st.0, lines[1..])
  {
    var st := Step(command, lines[0]);
    var f := Fold(st.0, lines[1..]);
    assert Fold(command, lines) == (f.0, st.1 + f.1);
    AppendAssoc(st.1, f.1, Finish(f.0));
  }

  /** The sections from a line on, grouped the same way the loop's step groups them. */
  lemma ExpectedStep(command: string, lines: seq<string>)
    requires lines != []
    requires command == "" || IsHeading(command)
    ensures var st := Step(command, lines[0]);
      Expected(command, lines) == st.1 + Expected(st.0, lines[1..])
  {
    var tmp := Trim(lines[0]);
    if IsHeading(tmp) {
      ExpectedAtHeading(command, lines);
    } else if tmp != "" && command != "" {
      ExpectedAtBodyLine(command, lines);
    } else {
      ExpectedAtSkippedLine(command, lines);
    }
  }

  /** A heading closes the entry being built and opens the next section. */
  lemma ExpectedAtHeading(command: string, lines: seq<string>)
    requires lines != [] && IsHeading(Trim(lines[0]))
    ensures var st := Step(command, lines[0]);
      Expected(command, lines) == st.1 + Expected(st.0, lines[1..])
  {
    var tmp := Trim(lines[0]);
    var rest := lines[1..];
    assert BodyLines(lines) == [];
    assert command + Joined([]) == command;
    var sec := Section(tmp, BodyLines(rest));
    assert Sections(lines) == [sec] + Sections(rest);
    assert ([sec] + Sections(rest))[1..] == Sections(rest);
    assert EntryTexts(Sections(lines)) == [EntryText(sec)] + EntryTexts(Sections(rest));
  }

  /** A non-blank line under a heading joins the entry being built. */
  lemma ExpectedAtBodyLine(command: string, lines: seq<string>)
    requires lines != [] && command != ""
    requires !IsHeading(Trim(lines[0])) && Trim(lines[0]) != ""
    ensures var st := Step(command, lines[0]);
      Expected(command, lines) == st.1 + Expected(st.0, lines[1..])
  {
    var tmp := Trim(lines[0]);
    var body := BodyLines(lines[1..]);
    assert Sections(lines) == Sections(lines[1..]);
    assert BodyLines(lines) == [tmp] + body;
    assert ([tmp] + body)[1..] == body;
    assert Joined(BodyLines(lines)) == " " + tmp + "\n" + Joined(body);
    AppendAssoc(command + " " + tmp + "\n", [], Joined(body));
    assert command + " " + tmp + "\n" == command + (" " + tmp + "\n");
    AppendAssoc(command, " " + tmp + "\n", Joined(body));
    var none: seq<string> := [];
    assert Step(command, lines[0]).1 == none;
  }

  /** A blank line, or any line before the first heading, changes nothing. */
  lemma ExpectedAtSkippedLine(command: string, lines: seq<string>)
    requires lines != [] && !IsHeading(Trim(lines[0]))
    requires Trim(lines[0]) == "" || command == ""
    ensures var st := Step(command, lines[0]);
      Expected(command, lines) == st.1 + Expected(st.0, lines[1..])
  {
    assert Sections(lines) == Sections(lines[1..]);
    if command != "" {
      assert BodyLines(lines) == BodyLines(lines[1..]);
    }
    var none: seq<string> := [];
    assert Step(command, lines[0]) == (command, none);
    assert none + Expected(command, lines[1..]) == Expected(command, lines[1..]);
  }

  /** At the end of the reference the flush prints the entry begun, if any. */
  lemma FoldSectionsEnd(command: string)
    requires command == "" || IsHeading(command)
    ensures Printed(command, []) == Expected(command, [])
  {
    if command != "" {
      TrimKeepsHeading(command);
      assert command + Joined(BodyLines([])) == command;
    }
  }

  /** The loop prints exactly the expected entries, whatever entry it has begun. */
  lemma {:induction false} FoldSections(command: string, lines: seq<string>)
    requires command == "" || IsHeading(command)
    decreases |lines|
    ensures Printed(command, lines) == Expected(command, lines)
  {
    if lines == [] {
      FoldSectionsEnd(command);
    } else {
      var st := Step(command, lines[0]);
      StepShape(command, lines[0]);
      PrintedStep(command, lines);
      ExpectedStep(command, lines);
      FoldSections(st.0, lines[1..]);
    }
  }

  /** An entry begins with its heading followed by `" :"`. */
  lemma EntryStartsWithHeading(sec: Section)
    requires IsHeading(sec.heading)
    ensures StartsWith(EntryText(sec), sec.heading + " :")
  {
    var h := sec.heading;
    var x := h + " :" + Joined(sec.body);
    assert x[0] == '#';
    assert TrimStart(x) == x;
    var r := TrimEnd(x);
    assert x[|h| + 1] == ':';
    assert |r| > |h| + 1;
    assert r[..|h| + 2] == x[..|h| + 2];
  }

  /** Every section starts at a heading line. */
  lemma {:induction false} SectionsAreHeaded(lines: seq<string>)
    decreases |lines|
    ensures forall k :: 0 <= k < |Sections(lines)| ==> IsHeading(Sections(lines)[k].heading)
  {
    if lines != [] {
      SectionsAreHeaded(lines[1..]);
    }
  }

  /** `EntryTexts` shows the k-th section as the k-th text. */
  lemma {:induction false} EntryTextsAt(secs: seq<Section>)
    decreases |secs|
    ensures |EntryTexts(secs)| == |secs|
    ensures forall k :: 0 <= k < |secs| ==> EntryTexts(secs)[k] == EntryText(secs[k])
  {
    if secs != [] {
      EntryTextsAt(secs[1..]);
      var texts := EntryTexts(secs);
      assert texts == [EntryText(secs[0])] + EntryTexts(secs[1..]);
      forall k | 0 <= k < |secs|
        ensures texts[k] == EntryText(secs[k])
      {
        if k > 0 {
          assert texts[k] == EntryTexts(secs[1..])[k - 1];
          assert secs[k] == secs[1..][k - 1];
        }
      }
    }
  }

  /**
   * `scpi list` shows exactly the sections of the reference, in order: entry
   * k is the k-th heading line, `" :"`, and each non-blank line under it as
   * `" <line>\n"`, the whole trimmed. Lines before the first heading are
   * not shown.
   */
  lemma SummaryContents(content: string)
    ensures var secs := Sections(Lines(content));
      && |Summary(content)| == |secs|
      && forall k :: 0 <= k < |secs| ==>
           Summary(content)[k] == EntryText(secs[k]) && StartsWith(Summary(content)[k], secs[k].heading + " :")
  {
    var secs := Sections(Lines(content));
    FoldSections("", Lines(content));
    EntryTextsAt(secs);
    SectionsAreHeaded(Lines(content));
    forall k | 0 <= k < |secs|
      ensures StartsWith(EntryText(secs[k]), secs[k].heading + " :")
    {
      EntryStartsWithHeading(secs[k]);
    }
  }

  /** What the loop still prints from `rest` with `command` being built. */
  function Remaining(command: string, rest: string): seq<string> {
    var f := Fold(command, Lines(rest));
    f.1 + Finish(f.0)
  }

  /** Reading one line of a non-empty stream: its entries, then the rest. */
  lemma RemainingStep(command: string, rest: string)
    requires rest != []
    ensures var r := ReadUntil(rest, '\n');
      Remaining(command, rest) == Step(command, r.0).1 + Remaining(Step(command, r.0).0, r.1)
  {
    var r := ReadUntil(rest, '\n');
    assert Lines(rest) == [r.0] + Lines(r.1);
    FoldCons(command, r.0, Lines(r.1));
    var st := Step(command, r.0);
    var f := Fold(st.0, Lines(r.1));
    AppendAssoc(st.1, f.1, Finish(f.0));
  }

  /** The `scpi list` loop over the command reference, as the firmware runs it. */
  method Summarise(content: string) returns (entries: seq<string>)
    ensures entries == Summary(content)
  {
    var rest := content;
    var command := "";
    entries := [];
    assert Summary(content) == entries + Remaining(command, rest);
    while rest != []
      invariant Summary(content) == entries + Remaining(command, rest)
      decreases |rest|
    {
      ReadUntilProgress(rest, '\n');
      RemainingStep(command, rest);
      var r := ReadUntil(rest, '\n');
      ghost var step := Step(command, r.0);
      ghost var entries0 := entries;
      ghost var before := Remaining(command, rest);
      ghost var after := Remaining(step.0, r.1);
      assert before == step.1 + after;
      AppendAssoc(entries0, step.1, after);
      var tmp := Trim(r.0);
      rest := r.1;
      if IsHeading(tmp) {
        if command != "" {
          entries := entries + [Trim(command)];
        }
        command := tmp + " :";
      } else if tmp != "" {
        if command != "" {
          command := command + " " + tmp + "\n";
        }
      }
      assert command == step.0 && entries == entries0 + step.1;
    }
    assert Remaining(command, rest) == Finish(command);
    var last := Trim(command);
    if last != "" {
      entries := entries + [last];
    }
  }

  // ---------------------------------------------------------------------
  // StartServices: the hostname and the wait for the power supply
  // ---------------------------------------------------------------------

  /** `sprintf(hostname, "%s-%08u", type, serial_number)`. */
  function Hostname(psuType: string, serial: uint32): string {
    psuType + "-" + ZeroPad(Decimal(serial), SerialDigits)
  }

  /**
   * The hostname is the type, a dash and a decimal number that reads back
   * as the serial number; the number has 8 digits below 10^8 and is not
   * cut for larger serials.
   */
  lemma HostnameParts(psuType: string, serial: uint32)
    ensures var h := Hostname(psuType, serial);
      var digits := h[|psuType| + 1..];
      && h[..|psuType| + 1] == psuType + "-"
      && IsDigits(digits) && DigitsValue(digits) == serial
      && |digits| == if serial < Pow10(SerialDigits) then SerialDigits else |Decimal(serial)|
  {
    var h := Hostname(psuType, serial);
    assert h[|psuType| + 1..] == ZeroPad(Decimal(serial), SerialDigits);
    DecimalValue(serial);
    ZeroPadValue(Decimal(serial), SerialDigits);
    DecimalLength(serial, SerialDigits);
  }

  /** Two supplies of the same type get different hostnames unless their serials agree. */
  lemma HostnameInjective(psuType: string, s1: uint32, s2: uint32)
    requires Hostname(psuType, s1) == Hostname(psuType, s2)
    ensures s1 == s2
  {
    HostnameParts(psuType, s1);
    HostnameParts(psuType, s2);
  }

  /** A 32-bit serial prints in at most 10 digits, so the hostname is at most 11 characters longer than the type. */
  lemma HostnameLength(psuType: string, serial: uint32)
    ensures |Hostname(psuType, serial)| <= |psuType| + 11
  {
    assert Pow10(10) == 10000000000 by {
      assert Pow10(5) == 100000;
      assert Pow10(10) == 100000 * Pow10(5);
    }
    DecimalLength(serial, 10);
  }

  /**
   * The Modbus driver as `StartServices` sees it: whether the `k`-th call
   * of `begin()` succeeds, the milliseconds since the wait started when the
   * `k`-th call returns, whether the driver then reports the supply
   * connected, and the type and serial number it reads.
   */
  datatype ModbusProbe = ModbusProbe(
    beginOk: nat -> bool, elapsedAt: nat -> nat, isConnected: bool, psuType: string, serial: uint32)

  /** Every failed attempt is followed by `delay(100)`, so the clock runs at least that fast. */
  ghost predicate ClockAdvances(p: ModbusProbe) {
    forall k: nat :: p.elapsedAt(k) >= BootRetryDelayMs * k
  }

  /**
   * The wait loop of `StartServices`: calls `begin()` until it succeeds or,
   * after a failure, 5000 ms have passed. Returns the number of calls made,
   * which is never more than 51.
   */
  method BootWait(p: ModbusProbe) returns (attempts: nat)
    requires ClockAdvances(p)
    ensures 1 <= attempts <= MaxBootAttempts
    ensures p.beginOk(attempts - 1) || p.elapsedAt(attempts - 1) >= BootWaitMs
    ensures forall k :: 0 <= k < attempts - 1 ==> !p.beginOk(k) && p.elapsedAt(k) < BootWaitMs
  {
    attempts := 1;
    while !p.beginOk(attempts - 1)
      invariant 1 <= attempts <= MaxBootAttempts
      invariant forall k :: 0 <= k < attempts - 1 ==> !p.beginOk(k) && p.elapsedAt(k) < BootWaitMs
      decreases MaxBootAttempts - attempts
    {
      if p.elapsedAt(attempts - 1) >= BootWaitMs {
        break;
      }
      attempts := attempts + 1;
    }
  }

  datatype FwCall =
    | HttpBegin | ConfigBegin
    | SetupWifi(hostname: Option<string>)
    | ScpiBegin | BridgeBegin | VxiBegin | RpcBindBegin | StatusStart | LedOff | MdnsAdvertise
    | LedBlink
    | PrintFreeRam | ShowServicesStatus
    | FsEnd | Restart
    | ClaimControl | ScpiWrite(text: string) | ScpiRead | ReleaseControl

  /**
   * What `StartServices` starts after the wait: with the supply connected,
   * WiFi under the hostname, then SCPI, the Modbus bridge, VXI-11, RPC
   * bind, the status poller, the LED and the mDNS services; otherwise WiFi
   * without a hostname and the fast-blinking LED.
   */
  function StartLog(p: ModbusProbe): seq<FwCall> {
    if p.isConnected then
      [SetupWifi(Some(Hostname(p.psuType, p.serial))), ScpiBegin, BridgeBegin, VxiBegin,
       RpcBindBegin, StatusStart, LedOff, MdnsAdvertise]
    else
      [SetupWifi(None), LedBlink]
  }

  // ---------------------------------------------------------------------
  // The WebSerial console
  // ---------------------------------------------------------------------

  datatype Command = Help | FreeRam | Reboot | SetSafemode | Scpi(sub: string) | Svc(sub: string) | Boot | Ignored

  /**
   * How the console reads a message: `help`, `freeram` and `reboot` in
   * both modes; `safemode`, `scpi...` and `svc...` only outside safemode,
   * with the rest of the text trimmed; `boot` only in safemode.
   */
  function Classify(d: string, safemode: bool): Command {
    if d == "help" then Help
    else if d == "freeram" then FreeRam
    else if d == "reboot" then Reboot
    else if !safemode then
      if d == "safemode" then SetSafemode
      else if StartsWith(d, "scpi") then Scpi(Trim(d[4..]))
      else if StartsWith(d, "svc") then Svc(Trim(d[3..]))
      else Ignored
    else if d == "boot" then Boot
    else Ignored
  }

  /** Safemode admits only `help`, `freeram`, `reboot` and `boot`; `boot` is refused outside it. */
  lemma SafemodeGating(d: string)
    ensures Classify(d, true) in {Help, FreeRam, Reboot, Boot, Ignored}
    ensures Classify(d, true) == Boot <==> d == "boot"
    ensures Classify(d, true) == Reboot <==> d == "reboot"
    ensures Classify(d, false) != Boot
    ensures Classify(d, false) == SetSafemode <==> d == "safemode"
    ensures Classify(d, false).Scpi? <==> StartsWith(d, "scpi")
    ensures Classify(d, false).Svc? <==> StartsWith(d, "svc")
    ensures Classify(d, true) in {Help, FreeRam, Reboot} ==> Classify(d, false) == Classify(d, true)
  {
    if StartsWith(d, "scpi") {
      assert d[1] == 'c';
    }
    if StartsWith(d, "svc") {
      assert d[1] == 'v';
    }
  }

  /** The console messages of the `safemode`, `scpi list` and `scpi <command>` handlers. */
  const FlagSetMessage := "Safemode flag set, reboot to enter safemode"
  const FlagFailedMessage := "Could not create flag file. Consider reflashing littlefs partition"
  const ListFailedMessage := "Failed to scpi commands"
  const ScpiErrorMessage := "SCPI : Error while processing command"
  const ScpiRefusedMessage := "SCPI : could not process command"

  /** In safemode the reply and the calls depend on the message alone. */
  lemma SafemodeEffects(d: string, flagWritten: bool, listing: Option<string>, env: Env)
    ensures Reply(Classify(d, true), true, flagWritten, listing, env) == if d == "help" then HelpText(true) else []
    ensures CallsOf(Classify(d, true), env) ==
      if d == "freeram" then [PrintFreeRam] else if d == "reboot" then [FsEnd, Restart] else []
    ensures (Classify(d, true) == Reboot <==> d == "reboot") && (Classify(d, true) == Boot <==> d == "boot")
    ensures !Classify(d, true).Svc? && Classify(d, true) != SetSafemode
  {
    SafemodeGating(d);
  }

  function HelpText(safemode: bool): seq<string> {
    ["freeram : display free ram"]
    + (if safemode then ["boot : exit safemode and continue boot"]
       else ["safemode : enter safemode at next boot", "scpi : scpi commands", "svc : manage services"])
    + ["reboot : reboot dongle"]
  }

  const ScpiHelpText: seq<string> := [
    "scpi help : display this help",
    "scpi list : list all available commands",
    "scpi [command] : execute command (see scpi list for available commands)",
    "** Note : Using scpi [command] will force close external connections **"]

  const SvcHelpText: seq<string> := [
    "svc help : display this help",
    "svc status : display services status",
    "svc start : start services",
    "svc stop : stop services"]

  datatype ScpiAction = ScpiHelp | ScpiList | ScpiRun(text: string)

  function ScpiActionOf(sub: string): ScpiAction {
    if sub == "" || sub == "help" then ScpiHelp
    else if sub == "list" then ScpiList
    else ScpiRun(sub)
  }

  datatype SvcAction = SvcHelp | SvcStatus | SvcStop | SvcStart | SvcOther

  function SvcActionOf(sub: string): SvcAction {
    if sub == "" || sub == "help" then SvcHelp
    else if sub == "status" then SvcStatus
    else if sub == "stop" then SvcStop
    else if sub == "start" then SvcStart
    else SvcOther
  }

  /**
   * The SCPI handler as the console sees it: whether `claim_control()`
   * succeeds, and the reply `read` produces (`None` when it does not
   * return `SCPI_RES_OK`); plus the Modbus driver for `svc start`.
   */
  datatype Env = Env(claimOk: bool, scpiReply: Option<string>, probe: ModbusProbe)

  /**
   * The calls `scpi <command>` makes: a claim, and only when it succeeds
   * the write of all but the last character, the read and the release.
   */
  function ScpiRunCalls(text: string, env: Env): seq<FwCall>
    requires text != ""
  {
    [ClaimControl] + (if env.claimOk then [ScpiWrite(text[..|text| - 1]), ScpiRead, ReleaseControl] else [])
  }

  function ScpiRunReply(env: Env): seq<string> {
    if !env.claimOk then [ScpiRefusedMessage]
    else match env.scpiReply
      case None => [ScpiErrorMessage]
      case Some(reply) => [reply]
  }

  /** What `scpi <sub>` prints. */
  function ScpiReply(sub: string, listing: Option<string>, env: Env): seq<string> {
    match ScpiActionOf(sub)
    case ScpiHelp => ScpiHelpText
    case ScpiList => (match listing case None => [ListFailedMessage] case Some(c) => Summary(c))
    case ScpiRun(_) => ScpiRunReply(env)
  }

  /**
   * What the console prints after echoing a message, given whether the
   * flag file could be written and what the command reference holds.
   */
  function Reply(cmd: Command, safemode: bool, flagWritten: bool, listing: Option<string>, env: Env): seq<string> {
    match cmd
    case Help => HelpText(safemode)
    case SetSafemode =>
      [if flagWritten then FlagSetMessage else FlagFailedMessage]
    case Scpi(sub) => ScpiReply(sub, listing, env)
    case Svc(sub) => if SvcActionOf(sub) == SvcHelp then SvcHelpText else []
    case _ => []
  }

  /** The calls a message leads to. */
  function CallsOf(cmd: Command, env: Env): seq<FwCall> {
    match cmd
    case FreeRam => [PrintFreeRam]
    case Reboot => [FsEnd, Restart]
    case Scpi(sub) => ScpiCalls(sub, env)
    case Svc(sub) => SvcCalls(sub, env)
    case _ => []
  }

  function ScpiCalls(sub: string, env: Env): seq<FwCall> {
    match ScpiActionOf(sub)
    case ScpiRun(text) => ScpiRunCalls(text, env)
    case _ => []
  }

  function SvcCalls(sub: string, env: Env): seq<FwCall> {
    match SvcActionOf(sub)
    case SvcStatus => [ShowServicesStatus]
    case SvcStart => StartLog(env.probe) + [ShowServicesStatus]
    case _ => []
  }

  /** The outcomes of the failsafe loop: `boot` resumed the boot, `reboot` restarted, or no such message came. */
  datatype SafemodeExit = Resumed | Restarted | StillInSafemode

  /** The outcomes of `setup` up to the start of the services. */
  datatype BootOutcome = Proceed | RestartedInSafemode | HeldInSafemode

  class Firmware {
    var isSafemode: bool
    var connected: bool
    /** The static `hostname` buffer. */
    var hostname: string
    var enPinState: bool
    var enPinStateChanged: bool
    /** The lines printed to the WebSerial console. */
    var out: seq<string>
    var calls: seq<FwCall>
    const fs: FlashFs.Fs

    /** The globals as they are at power-on. */
    constructor (fs: FlashFs.Fs)
      ensures this.fs == fs && !isSafemode && !connected && hostname == ""
      ensures !enPinState && !enPinStateChanged && out == [] && calls == []
    {
      this.fs := fs;
      isSafemode := false;
      connected := false;
      hostname := "";
      enPinState := false;
      enPinStateChanged := false;
      out := [];
      calls := [];
    }

    /**
     * `StartServices`: waits for the supply, then starts the services when
     * it is connected, naming the device after its type and serial number,
     * and reports whether it is connected.
     */
    method StartServices(p: ModbusProbe) returns (ok: bool)
      requires ClockAdvances(p)
      modifies this
      ensures ok == connected == p.isConnected
      ensures hostname == if p.isConnected then Hostname(p.psuType, p.serial) else old(hostname)
      ensures calls == old(calls) + StartLog(p)
      ensures isSafemode == old(isSafemode) && out == old(out)
      ensures enPinState == old(enPinState) && enPinStateChanged == old(enPinStateChanged)
    {
      var _ := BootWait(p);
      if p.isConnected {
        hostname := Hostname(p.psuType, p.serial);
        calls := calls + [SetupWifi(Some(hostname)), ScpiBegin, BridgeBegin, VxiBegin, RpcBindBegin, StatusStart, LedOff];
        calls := calls + [MdnsAdvertise];
        connected := true;
      } else {
        calls := calls + [SetupWifi(None), LedBlink];
        connected := false;
      }
      ok := connected;
    }

    /** `scpi <sub>` with `sub` already trimmed. */
    method HandleScpi(sub: string, env: Env)
      modifies this
      ensures var listing := if fs.mounted && CommandsFile in fs.files then Some(fs.files[CommandsFile]) else None;
        out == old(out) + ScpiReply(sub, listing, env)
      ensures calls == old(calls) + ScpiCalls(sub, env)
      ensures isSafemode == old(isSafemode) && connected == old(connected) && hostname == old(hostname)
      ensures enPinState == old(enPinState) && enPinStateChanged == old(enPinStateChanged)
    {
      var action := ScpiActionOf(sub);
      if action.ScpiHelp? {
        out := out + ScpiHelpText;
      } else if action.ScpiList? {
        var file := fs.Read(CommandsFile);
        if file.None? {
          out := out + [ListFailedMessage];
        } else {
          var entries := Summarise(file.value);
          out := out + entries;
        }
      } else {
        var text := action.text;
        calls := calls + [ClaimControl];
        if env.claimOk {
          calls := calls + [ScpiWrite(text[..|text| - 1]), ScpiRead];
          if env.scpiReply.Some? {
            out := out + [env.scpiReply.value];
          } else {
            out := out + [ScpiErrorMessage];
          }
          calls := calls + [ReleaseControl];
        } else {
          out := out + [ScpiRefusedMessage];
        }
      }
    }

    /** `svc <sub>` with `sub` already trimmed. */
    method HandleSvc(sub: string, env: Env)
      requires ClockAdvances(env.probe)
      modifies this
      ensures out == old(out) + (if SvcActionOf(sub) == SvcHelp then SvcHelpText else [])
      ensures calls == old(calls) + SvcCalls(sub, env)
      ensures connected == if SvcActionOf(sub) == SvcStart then env.probe.isConnected else old(connected)
      ensures hostname == if SvcActionOf(sub) == SvcStart && env.probe.isConnected
        then Hostname(env.probe.psuType, env.probe.serial) else old(hostname)
      ensures isSafemode == old(isSafemode)
      ensures enPinState == old(enPinState) && enPinStateChanged == old(enPinStateChanged)
    {
      match SvcActionOf(sub)
      case SvcHelp =>
        out := out + SvcHelpText;
      case SvcStatus =>
        calls := calls + [ShowServicesStatus];
      case SvcStop =>
      case SvcStart =>
        var _ := StartServices(env.probe);
        calls := calls + [ShowServicesStatus];
      case SvcOther =>
    }

    /** The message handler while in safemode: only `help`, `freeram`, `reboot` and `boot` do anything. */
    method DispatchInSafemode(d: string) returns (restart: bool)
      requires isSafemode
      modifies this, fs
      ensures out == old(out) + [d] + (if d == "help" then HelpText(true) else [])
      ensures calls == old(calls) + (if d == "freeram" then [PrintFreeRam] else if d == "reboot" then [FsEnd, Restart] else [])
      ensures (restart <==> d == "reboot") && (isSafemode <==> d != "boot")
      ensures fs.files == old(fs.files) && fs.writable == old(fs.writable)
      ensures fs.mounted == (old(fs.mounted) && d != "reboot")
      ensures connected == old(connected) && hostname == old(hostname)
      ensures enPinState == old(enPinState) && enPinStateChanged == old(enPinStateChanged)
    {
      out := out + [d];
      restart := false;
      if d == "help" {
        out := out + HelpText(true);
      } else if d == "freeram" {
        calls := calls + [PrintFreeRam];
      } else if d == "reboot" {
        fs.End();
        calls := calls + [FsEnd, Restart];
        restart := true;
      } else if d == "boot" {
        isSafemode := false;
      }
    }

    /** Carries out a message already classified outside safemode; `boot` does nothing here. */
    method Execute(cmd: Command, env: Env)
      requires ClockAdvances(env.probe)
      modifies this, fs
      ensures out == old(out) + Reply(cmd, false, old(fs.mounted && fs.writable),
        if old(fs.mounted) && CommandsFile in old(fs.files) then Some(old(fs.files)[CommandsFile]) else None, env)
      ensures calls == old(calls) + CallsOf(cmd, env)
      ensures connected == if cmd.Svc? && SvcActionOf(cmd.sub) == SvcStart then env.probe.isConnected else old(connected)
      ensures hostname == if cmd.Svc? && SvcActionOf(cmd.sub) == SvcStart && env.probe.isConnected
        then Hostname(env.probe.psuType, env.probe.serial) else old(hostname)
      ensures fs.files == if cmd.SetSafemode? && old(fs.mounted && fs.writable)
        then old(fs.files)[FailsafeFile := ""] else old(fs.files)
      ensures fs.mounted == (old(fs.mounted) && !cmd.Reboot?)
      ensures fs.writable == old(fs.writable)
      ensures isSafemode == old(isSafemode)
      ensures enPinState == old(enPinState) && enPinStateChanged == old(enPinStateChanged)
    {
      if cmd.Scpi? {
        HandleScpi(cmd.sub, env);
      } else if cmd.Svc? {
        HandleSvc(cmd.sub, env);
      } else {
        ExecuteLocal(cmd);
      }
    }

    /** The messages that need neither the SCPI bridge nor the services. */
    method ExecuteLocal(cmd: Command)
      requires !cmd.Scpi? && !cmd.Svc?
      modifies this, fs
      ensures out == old(out) + (if cmd.Help? then HelpText(false)
        else if cmd.SetSafemode? then [if old(fs.mounted && fs.writable) then FlagSetMessage else FlagFailedMessage]
        else [])
      ensures calls == old(calls) + (if cmd.FreeRam? then [PrintFreeRam] else if cmd.Reboot? then [FsEnd, Restart] else [])
      ensures fs.files == if cmd.SetSafemode? && old(fs.mounted && fs.writable)
        then old(fs.files)[FailsafeFile := ""] else old(fs.files)
      ensures fs.mounted == (old(fs.mounted) && !cmd.Reboot?)
      ensures fs.writable == old(fs.writable)
      ensures isSafemode == old(isSafemode) && connected == old(connected) && hostname == old(hostname)
      ensures enPinState == old(enPinState) && enPinStateChanged == old(enPinStateChanged)
    {
      if cmd.SetSafemode? {
        var created := fs.Write(FailsafeFile, "");
        out := out + [if created then FlagSetMessage else FlagFailedMessage];
      } else if cmd.Help? {
        out := out + HelpText(false);
      } else if cmd.FreeRam? {
        calls := calls + [PrintFreeRam];
      } else if cmd.Reboot? {
        fs.End();
        calls := calls + [FsEnd, Restart];
      }
    }

    /** The message handler outside safemode; `boot` is not a command here. */
    method DispatchInNormalMode(d: string, env: Env) returns (restart: bool)
      requires ClockAdvances(env.probe) && !isSafemode
      modifies this, fs
      ensures restart == (Classify(d, false) == Reboot) && !isSafemode
      ensures out == old(out) + [d] + Reply(Classify(d, false), false, old(fs.mounted && fs.writable),
        if old(fs.mounted) && CommandsFile in old(fs.files) then Some(old(fs.files)[CommandsFile]) else None, env)
      ensures calls == old(calls) + CallsOf(Classify(d, false), env)
      ensures connected == if Classify(d, false).Svc? && SvcActionOf(Classify(d, false).sub) == SvcStart
        then env.probe.isConnected else old(connected)
      ensures hostname == if Classify(d, false).Svc? && SvcActionOf(Classify(d, false).sub) == SvcStart
          && env.probe.isConnected then Hostname(env.probe.psuType, env.probe.serial) else old(hostname)
      ensures fs.files == if Classify(d, false) == SetSafemode && old(fs.mounted && fs.writable)
        then old(fs.files)[FailsafeFile := ""] else old(fs.files)
      ensures fs.mounted == (old(fs.mounted) && Classify(d, false) != Reboot)
      ensures fs.writable == old(fs.writable)
      ensures enPinState == old(enPinState) && enPinStateChanged == old(enPinStateChanged)
    {
      out := out + [d];
      var cmd := Classify(d, false);
      Execute(cmd, env);
      restart := cmd == Reboot;
    }

    /**
     * The WebSerial message handler: echoes the message, then acts on it as
     * `Classify` reads it in the current mode. Returns whether the device
     * restarts.
     */
    method Dispatch(d: string, env: Env) returns (restart: bool)
      requires ClockAdvances(env.probe)
      modifies this, fs
      ensures restart == (Classify(d, old(isSafemode)) == Reboot)
      ensures out == old(out) + [d] + Reply(Classify(d, old(isSafemode)), old(isSafemode), old(fs.mounted && fs.writable),
        if old(fs.mounted) && CommandsFile in old(fs.files) then Some(old(fs.files)[CommandsFile]) else None, env)
      ensures calls == old(calls) + CallsOf(Classify(d, old(isSafemode)), env)
      ensures isSafemode == (old(isSafemode) && Classify(d, old(isSafemode)) != Boot)
      ensures connected == if Classify(d, old(isSafemode)).Svc? && SvcActionOf(Classify(d, old(isSafemode)).sub) == SvcStart
        then env.probe.isConnected else old(connected)
      ensures fs.files == if Classify(d, old(isSafemode)) == SetSafemode && old(fs.mounted && fs.writable)
        then old(fs.files)[FailsafeFile := ""] else old(fs.files)
      ensures fs.mounted == (old(fs.mounted) && Classify(d, old(isSafemode)) != Reboot)
      ensures fs.writable == old(fs.writable)
      ensures enPinState == old(enPinState) && enPinStateChanged == old(enPinStateChanged)
    {
      if isSafemode {
        SafemodeEffects(d, fs.mounted && fs.writable,
          if fs.mounted && CommandsFile in fs.files then Some(fs.files[CommandsFile]) else None, env);
        restart := DispatchInSafemode(d);
      } else {
        restart := DispatchInNormalMode(d, env);
      }
    }

    /**
     * `failsafeMode`: sets safemode and serves the console until a `boot`
     * clears it. `messages` are the console messages that arrive meanwhile;
     * a `reboot` among them restarts the device, and when neither comes the
     * device stays in safemode. Returns how the loop ended and how many
     * messages it handled.
     */
    method FailsafeMode(messages: seq<string>) returns (exit: SafemodeExit, consumed: nat)
      modifies this, fs
      ensures consumed <= |messages|
      ensures exit == Resumed ==> 1 <= consumed && messages[consumed - 1] == "boot"
      ensures exit == Restarted ==> 1 <= consumed && messages[consumed - 1] == "reboot"
      ensures exit == StillInSafemode ==> consumed == |messages|
      ensures forall j :: 0 <= j < consumed && (exit == StillInSafemode || j < consumed - 1) ==>
        messages[j] != "boot" && messages[j] != "reboot"
      ensures isSafemode <==> exit != Resumed
      ensures fs.files == old(fs.files) && fs.writable == old(fs.writable)
      ensures fs.mounted == (old(fs.mounted) && exit != Restarted)
      ensures connected == old(connected) && hostname == old(hostname)
    {
      isSafemode := true;
      consumed := 0;
      while isSafemode && consumed < |messages|
        invariant consumed <= |messages|
        invariant isSafemode ==> forall j :: 0 <= j < consumed ==> messages[j] != "boot" && messages[j] != "reboot"
        invariant !isSafemode ==> (1 <= consumed && messages[consumed - 1] == "boot"
          && forall j :: 0 <= j < consumed - 1 ==> messages[j] != "boot" && messages[j] != "reboot")
        invariant fs.files == old(fs.files) && fs.writable == old(fs.writable) && fs.mounted == old(fs.mounted)
        invariant connected == old(connected) && hostname == old(hostname)
      {
        var restart := DispatchInSafemode(messages[consumed]);
        consumed := consumed + 1;
        if restart {
          return Restarted, consumed;
        }
      }
      exit := if isSafemode then StillInSafemode else Resumed;
    }

    /**
     * `setup` up to the start of the services: starts the web server, and
     * with the file system mounted enters safemode when the flag file is
     * there (a previous boot did not finish), then creates the flag, and
     * enters safemode when that fails. `messages` are the console messages
     * that arrive while in safemode.
     */
    method PrepareBoot(messages: seq<string>) returns (outcome: BootOutcome, enteredSafemode: bool)
      requires !isSafemode
      modifies this, fs
      ensures enteredSafemode <==> old(fs.mounted) && (FailsafeFile in old(fs.files) || !old(fs.writable))
      ensures outcome == Proceed ==> !isSafemode && fs.mounted == old(fs.mounted)
      ensures outcome == Proceed && old(fs.mounted) && old(fs.writable) ==> FailsafeFile in fs.files
      ensures fs.files == old(fs.files) || fs.files == old(fs.files)[FailsafeFile := ""]
      ensures fs.writable == old(fs.writable)
      ensures connected == old(connected) && hostname == old(hostname)
    {
      calls := calls + [HttpBegin];
      outcome := Proceed;
      enteredSafemode := false;
      if fs.mounted {
        var rest := messages;
        var flagged := fs.Exists(FailsafeFile);
        if flagged {
          enteredSafemode := true;
          var exit, n := FailsafeMode(messages);
          if exit != Resumed {
            outcome := if exit == Restarted then RestartedInSafemode else HeldInSafemode;
            return;
          }
          rest := messages[n..];
        }
        var created := fs.Write(FailsafeFile, "");
        if !created {
          enteredSafemode := true;
          var exit, _ := FailsafeMode(rest);
          if exit != Resumed {
            outcome := if exit == Restarted then RestartedInSafemode else HeldInSafemode;
            return;
          }
        }
      }
    }

    /**
     * The rest of `setup`: `InitServices` loads the configuration and
     * starts the services; then a flag file still there is removed and
     * safemode is cleared.
     */
    method CompleteBoot(p: ModbusProbe)
      requires ClockAdvances(p)
      modifies this, fs
      ensures calls == old(calls) + [ConfigBegin] + StartLog(p)
      ensures connected == p.isConnected
      ensures fs.files == if old(fs.mounted) then old(fs.files) - {FailsafeFile} else old(fs.files)
      ensures fs.mounted == old(fs.mounted) && fs.writable == old(fs.writable)
      ensures isSafemode == (old(isSafemode) && !(old(fs.mounted) && FailsafeFile in old(fs.files)))
    {
      calls := calls + [ConfigBegin];
      var _ := StartServices(p);
      var flagged := fs.Exists(FailsafeFile);
      if flagged {
        var _ := fs.Remove(FailsafeFile);
        isSafemode := false;
      }
    }

    /**
     * `setup`: once the boot gets past the failsafe check and the services
     * are started, the flag file is gone and the device is out of safemode.
     */
    method Setup(messages: seq<string>, env: Env) returns (outcome: BootOutcome)
      requires ClockAdvances(env.probe) && !isSafemode
      modifies this, fs
      ensures outcome == Proceed ==> !isSafemode && connected == env.probe.isConnected
      ensures outcome == Proceed && fs.mounted ==> FailsafeFile !in fs.files
      ensures outcome == Proceed ==> fs.mounted == old(fs.mounted)
      ensures fs.writable == old(fs.writable)
    {
      var entered;
      outcome, entered := PrepareBoot(messages);
      if outcome == Proceed {
        CompleteBoot(env.probe);
      }
    }

    /** `enPinStateChangeIntrHandler`: records the level of the EN pin and that it changed. */
    method EnPinInterrupt(level: bool)
      modifies this
      ensures enPinState == level && enPinStateChanged
      ensures isSafemode == old(isSafemode) && connected == old(connected) && out == old(out) && calls == old(calls)
    {
      enPinState := level;
      enPinStateChanged := true;
    }

    /**
     * The EN-pin part of `loop`: a change is always acknowledged; a change
     * to high starts the services when they are not connected.
     */
    method LoopEnPin(p: ModbusProbe)
      requires ClockAdvances(p)
      modifies this
      ensures !enPinStateChanged && enPinState == old(enPinState)
      ensures var start := old(enPinStateChanged && enPinState && !connected);
        && calls == old(calls) + (if start then StartLog(p) else [])
        && connected == (if start then p.isConnected else old(connected))
      ensures out == old(out) + (if !old(enPinStateChanged) then []
                                 else if old(enPinState) then ["RD EN Pin activated"]
                                 else ["RD EN Pin deactivated"])
      ensures isSafemode == old(isSafemode)
    {
      if enPinStateChanged {
        enPinStateChanged := false;
        if enPinState {
          out := out + ["RD EN Pin activated"];
          if !connected {
            var _ := StartServices(p);
          }
        } else {
          out := out + ["RD EN Pin deactivated"];
        }
      }
    }
  }

  /**
   * The failsafe protocol: a boot that gets past the failsafe check but
   * dies while starting the services leaves the flag file behind, so the
   * next boot enters safemode.
   */
  method InterruptedBootEntersSafemode(fs: FlashFs.Fs, first: seq<string>, second: seq<string>)
    returns (firstOutcome: BootOutcome, entered: bool)
    requires fs.mounted && fs.writable
    modifies fs
    ensures firstOutcome == Proceed ==> entered
  {
    var boot := new Firmware(fs);
    var firstEntered;
    firstOutcome, firstEntered := boot.PrepareBoot(first);
    entered := false;
    if firstOutcome == Proceed {
      var reboot := new Firmware(fs);
      var _, e := reboot.PrepareBoot(second);
      entered := e;
    }
  }

  /** A completed boot leaves no flag file, so the next boot does not enter safemode. */
  method CompletedBootSkipsSafemode(fs: FlashFs.Fs, first: seq<string>, second: seq<string>, env: Env)
    returns (firstOutcome: BootOutcome, entered: bool)
    requires ClockAdvances(env.probe) && fs.mounted && fs.writable
    modifies fs
    ensures firstOutcome == Proceed ==> !entered
  {
    var boot := new Firmware(fs);
    firstOutcome := boot.Setup(first, env);
    entered := false;
    if firstOutcome == Proceed {
      var reboot := new Firmware(fs);
      var _, e := reboot.PrepareBoot(second);
      entered := e;
    }
  }
}
