/**
 * The ISO-upload controller of vm/js/emulator.js: which uploaded files are
 * accepted, what is kept in the browser's local storage, the guards of
 * start, stop and reset, the emulator configuration (in particular its
 * CD-ROM source), and the Ctrl+Alt+Del key sequence. The emulator library
 * itself is opaque: creating it is recorded as the configuration it was
 * given, and the commands sent to it are recorded in order.
 */
module Emulator {
  import opened Wrappers
  import opened JsString

  /** A file chosen in the upload dialog: its name and its size in bytes. */
  datatype IsoFile = IsoFile(name: string, size: nat)

  /** The upload limit, 500 MiB. */
  const MAX_ISO_BYTES: nat := 500 * 1024 * 1024

  const ISO_NAME_KEY: string := "vm_iso_name"
  const ISO_SIZE_KEY: string := "vm_iso_size"

  // ---------------------------------------------------------------------
  // Upload validation
  // ---------------------------------------------------------------------

  /** `file.name.toLowerCase().endsWith('.iso')`: the last four characters spell ".iso" in any case. */
  predicate HasIsoExtension(name: string)
    ensures HasIsoExtension(name) <==> |name| >= 4 && ToLower(name[|name| - 4..]) == ".iso"
  {
    var low := ToLower(name);
    assert |name| >= 4 ==> low[|name| - 4..] == ToLower(name[|name| - 4..]);
    EndsWith(low, ".iso")
  }

  /** The upload dialog's verdict; the extension is checked before the size. */
  datatype Verdict = Accepted | NotAnIso | TooLarge

  function CheckIso(file: IsoFile): (v: Verdict)
    ensures v == Accepted <==> HasIsoExtension(file.name) && file.size <= MAX_ISO_BYTES
    ensures v == NotAnIso <==> !HasIsoExtension(file.name)
  {
    if !HasIsoExtension(file.name) then NotAnIso
    else if file.size > MAX_ISO_BYTES then TooLarge
    else Accepted
  }

  /**
   * The extension rule spelled out on the characters of the name: it ends
   * in a dot and the letters i, s, o, each in either case.
   */
  lemma IsoExtensionByCharacters(name: string)
    ensures HasIsoExtension(name) <==>
      |name| >= 4 && name[|name| - 4] == '.' &&
      (name[|name| - 3] == 'i' || name[|name| - 3] == 'I') &&
      (name[|name| - 2] == 's' || name[|name| - 2] == 'S') &&
      (name[|name| - 1] == 'o' || name[|name| - 1] == 'O')
  {
    var n := |name|;
    var low := ToLower(name);
    if n >= 4 {
      assert low[n - 4..] == [low[n - 4], low[n - 3], low[n - 2], low[n - 1]];
      assert ".iso" == ['.', 'i', 's', 'o'];
    }
  }

  /** Exactly 500 MiB is accepted and one byte more is refused. */
  lemma SizeLimitIsInclusive(name: string)
    requires HasIsoExtension(name)
    ensures CheckIso(IsoFile(name, 524288000)) == Accepted
    ensures CheckIso(IsoFile(name, 524288001)) == TooLarge
  {
  }

  // ---------------------------------------------------------------------
  // Local storage
  // ---------------------------------------------------------------------

  /** `localStorage.getItem(key)` used as a condition: present and not empty. */
  predicate Truthy(storage: map<string, string>, key: string)
  {
    key in storage && storage[key] != ""
  }

  /** The stored name, as `start` and `updateSystemInfo` read it. */
  function StoredIsoName(storage: map<string, string>): (r: Option<string>)
    ensures r.Some? <==> ISO_NAME_KEY in storage && storage[ISO_NAME_KEY] != ""
    ensures r.Some? ==> r.value == storage[ISO_NAME_KEY]
  {
    if Truthy(storage, ISO_NAME_KEY) then Some(storage[ISO_NAME_KEY]) else None
  }

  /** The stored name, as `checkStoredISO` reads it: only together with a stored size. */
  function StoredIsoRecord(storage: map<string, string>): (r: Option<string>)
    ensures r.Some? <==> StoredIsoName(storage).Some? && ISO_SIZE_KEY in storage && storage[ISO_SIZE_KEY] != ""
    ensures r.Some? ==> r == StoredIsoName(storage)
  {
    if Truthy(storage, ISO_NAME_KEY) && Truthy(storage, ISO_SIZE_KEY) then Some(storage[ISO_NAME_KEY]) else None
  }

  /** The two page-load guards disagree exactly when a name is stored without a size. */
  lemma StorageGuardsDisagree(storage: map<string, string>)
    ensures StoredIsoRecord(storage) != StoredIsoName(storage) <==>
      Truthy(storage, ISO_NAME_KEY) && !Truthy(storage, ISO_SIZE_KEY)
    ensures StoredIsoRecord(storage).Some? ==> StoredIsoRecord(storage) == StoredIsoName(storage)
  {
  }

  /** What `confirmISOUpload` writes: the name, and the size in decimal. */
  function Persist(storage: map<string, string>, file: IsoFile): (r: map<string, string>)
    ensures r.Keys == storage.Keys + {ISO_NAME_KEY, ISO_SIZE_KEY}
    ensures r[ISO_NAME_KEY] == file.name && r[ISO_SIZE_KEY] == NatToString(file.size)
    ensures forall k :: k in storage && k != ISO_NAME_KEY && k != ISO_SIZE_KEY ==> r[k] == storage[k]
  {
    storage[ISO_NAME_KEY := file.name][ISO_SIZE_KEY := NatToString(file.size)]
  }

  /**
   * An accepted file's record reads back whole: both guards see its name,
   * the size parses back to the file's size, and no other key changes.
   */
  lemma PersistReadsBack(storage: map<string, string>, file: IsoFile)
    requires CheckIso(file) == Accepted
    ensures StoredIsoName(Persist(storage, file)) == Some(file.name)
    ensures StoredIsoRecord(Persist(storage, file)) == Some(file.name)
    ensures AllDigits(Persist(storage, file)[ISO_SIZE_KEY])
    ensures ParseDigits(Persist(storage, file)[ISO_SIZE_KEY]) == file.size
    ensures forall k :: k != ISO_NAME_KEY && k != ISO_SIZE_KEY ==>
      (k in Persist(storage, file) <==> k in storage) &&
      (k in storage ==> Persist(storage, file)[k] == storage[k])
  {
    ParseNatToString(file.size);
  }

  /** The "iso-info" label after `checkStoredISO`; None while the page default shows. */
  function AfterCheckStoredIso(shown: Option<string>, storage: map<string, string>): (r: Option<string>)
    ensures StoredIsoRecord(storage).Some? ==> r == Some(storage[ISO_NAME_KEY])
    ensures StoredIsoRecord(storage).None? ==> r == shown
  {
    if StoredIsoRecord(storage).Some? then StoredIsoRecord(storage) else shown
  }

  /** The "iso-info" label after `updateSystemInfo`. */
  function AfterUpdateSystemInfo(shown: Option<string>, storage: map<string, string>): (r: Option<string>)
    ensures StoredIsoName(storage).Some? ==> r == Some(storage[ISO_NAME_KEY])
    ensures StoredIsoName(storage).None? ==> r == shown
  {
    if StoredIsoName(storage).Some? then StoredIsoName(storage) else shown
  }

  /**
   * Page load runs `checkStoredISO` and then `updateSystemInfo`; the second
   * guard is the weaker one, so the first call never changes what is shown.
   */
  lemma PageLoadLabelIgnoresSize(shown: Option<string>, storage: map<string, string>)
    ensures AfterUpdateSystemInfo(AfterCheckStoredIso(shown, storage), storage) ==
            AfterUpdateSystemInfo(shown, storage)
  {
    StorageGuardsDisagree(storage);
  }

  // ---------------------------------------------------------------------
  // Emulator configuration
  // ---------------------------------------------------------------------

  const BIOS_URL: string := "https://cdn.jsdelivr.net/npm/v86@0.2.0/images/bios/seabios.bin"
  const VGA_BIOS_URL: string := "https://cdn.jsdelivr.net/npm/v86@0.2.0/images/bios/vgabios.bin"
  const DEFAULT_LINUX_ISO: string := "https://cdn.jsdelivr.net/npm/v86@0.2.0/images/linux.iso"
  const NETWORK_RELAY_URL: string := "wss://relay.widgetry.org/"
  const MEMORY_SIZE: nat := 128 * 1024 * 1024
  const VGA_MEMORY_SIZE: nat := 8 * 1024 * 1024
  const BOOT_ORDER: nat := 0x213

  /** The CD-ROM is either a local file or a remote image, never both. */
  datatype Cdrom = LocalFile(file: IsoFile) | RemoteImage(url: string)

  datatype EmulatorConfig = EmulatorConfig(
    biosUrl: string, vgaBiosUrl: string, memorySize: nat, vgaMemorySize: nat,
    bootOrder: nat, networkRelayUrl: string, cdrom: Cdrom)

  /** The configuration `start` builds: the chosen file when there is one, else the demo image. */
  function ConfigFor(isoFile: Option<IsoFile>): (c: EmulatorConfig)
    ensures c.cdrom.LocalFile? <==> isoFile.Some?
    ensures isoFile.Some? ==> c.cdrom.file == isoFile.value
    ensures isoFile.None? ==> c.cdrom.url == DEFAULT_LINUX_ISO
  {
    EmulatorConfig(BIOS_URL, VGA_BIOS_URL, MEMORY_SIZE, VGA_MEMORY_SIZE, BOOT_ORDER, NETWORK_RELAY_URL,
      match isoFile
      case Some(f) => LocalFile(f)
      case None => RemoteImage(DEFAULT_LINUX_ISO))
  }

  // ---------------------------------------------------------------------
  // Scancodes
  // ---------------------------------------------------------------------

  /** A byte of PC scan-code set 1: below 0x80 a key press, with 0x80 set a release. */
  type Scancode = bv8

  const CTRL: Scancode := 0x1D
  const ALT: Scancode := 0x38
  const DELETE: Scancode := 0x53

  /** The bytes `sendCtrlAltDel` sends. */
  const CTRL_ALT_DEL: seq<Scancode> := [0x1D, 0x38, 0x53, 0xD3, 0xB8, 0x9D]

  function Break(make: Scancode): Scancode
  {
    make | 0x80
  }

  /** The release codes of `makes`, last key first. */
  function Releases(makes: seq<Scancode>): seq<Scancode>
  {
    if makes == [] then [] else Releases(makes[1..]) + [Break(makes[0])]
  }

  /** Press the keys in order, then let go of them in reverse order. */
  function Chord(makes: seq<Scancode>): seq<Scancode>
  {
    makes + Releases(makes)
  }

  lemma CtrlAltDelIsChord()
    ensures CTRL_ALT_DEL == Chord([CTRL, ALT, DELETE])
  {
    assert Break(CTRL) == 0x9D && Break(ALT) == 0xB8 && Break(DELETE) == 0xD3;
    assert [CTRL, ALT, DELETE][1..] == [ALT, DELETE] && [ALT, DELETE][1..] == [DELETE];
    assert Releases([DELETE]) == [Break(DELETE)];
    assert Releases([ALT, DELETE]) == [Break(DELETE), Break(ALT)];
    assert Releases([CTRL, ALT, DELETE]) == [Break(DELETE), Break(ALT), Break(CTRL)];
  }

  /** The keys held down after `codes`, starting with `held` down. */
  function HeldAfter(held: set<Scancode>, codes: seq<Scancode>): set<Scancode>
    decreases |codes|
  {
    if codes == [] then held
    else
      var c := codes[0];
      HeldAfter(if c & 0x80 == 0 then held + {c} else held - {c & 0x7F}, codes[1..])
  }

  lemma {:induction false} HeldAfterAppend(held: set<Scancode>, a: seq<Scancode>, b: seq<Scancode>)
    ensures HeldAfter(held, a + b) == HeldAfter(HeldAfter(held, a), b)
    decreases |a|
  {
    if a != [] {
      assert (a + b)[0] == a[0] && (a + b)[1..] == a[1..] + b;
      var c := a[0];
      HeldAfterAppend(if c & 0x80 == 0 then held + {c} else held - {c & 0x7F}, a[1..], b);
    } else {
      assert a + b == b;
    }
  }

  predicate DistinctMakes(makes: seq<Scancode>)
  {
    (forall i :: 0 <= i < |makes| ==> makes[i] & 0x80 == 0) &&
    (forall i, j :: 0 <= i < j < |makes| ==> makes[i] != makes[j])
  }

  /** The keys named in `makes`. */
  function KeysOf(makes: seq<Scancode>): set<Scancode>
    decreases |makes|
  {
    if makes == [] then {} else {makes[0]} + KeysOf(makes[1..])
  }

  /** Pressing distinct keys adds each of them to those held. */
  lemma {:induction false} PressingHoldsAll(held: set<Scancode>, makes: seq<Scancode>)
    requires DistinctMakes(makes)
    ensures HeldAfter(held, makes) == held + KeysOf(makes)
    decreases |makes|
  {
    if makes != [] {
      assert DistinctMakes(makes[1..]);
      PressingHoldsAll(held + {makes[0]}, makes[1..]);
    }
  }

  /** A chord of distinct keys not already held lets go of every key it pressed. */
  lemma {:induction false} ChordReleasesAll(held: set<Scancode>, makes: seq<Scancode>)
    requires DistinctMakes(makes)
    requires forall i :: 0 <= i < |makes| ==> makes[i] !in held
    ensures HeldAfter(held, Chord(makes)) == held
    decreases |makes|
  {
    if makes != [] {
      var m, rest := makes[0], makes[1..];
      assert Chord(makes) == [m] + (Chord(rest) + [Break(m)]);
      assert DistinctMakes(rest);
      forall i | 0 <= i < |rest|
        ensures rest[i] !in held + {m}
      {
        assert rest[i] == makes[i + 1];
      }
      ChordReleasesAll(held + {m}, rest);
      HeldAfterAppend(held + {m}, Chord(rest), [Break(m)]);
      assert Break(m) & 0x80 != 0 && Break(m) & 0x7F == m;
    }
  }

  /** Ctrl, Alt and Delete are all down once Delete is pressed, and all up at the end. */
  lemma CtrlAltDelPressesAndReleases()
    ensures HeldAfter({}, CTRL_ALT_DEL[..3]) == {CTRL, ALT, DELETE}
    ensures HeldAfter({}, CTRL_ALT_DEL) == {}
  {
    var makes := [CTRL, ALT, DELETE];
    CtrlAltDelIsChord();
    assert CTRL_ALT_DEL[..3] == makes;
    PressingHoldsAll({}, makes);
    assert KeysOf(makes) == {CTRL, ALT, DELETE} by {
      assert makes[1..] == [ALT, DELETE] && makes[1..][1..] == [DELETE];
      assert KeysOf([DELETE]) == {DELETE};
      assert KeysOf([ALT, DELETE]) == {ALT, DELETE};
    }
    ChordReleasesAll({}, makes);
  }

  // ---------------------------------------------------------------------
  // The controller
  // ---------------------------------------------------------------------

  /** A command sent to the emulator library. */
  datatype EmulatorCall = StopCall | RestartCall | SendScancodes(codes: seq<Scancode>)

  /** How `start` ends. */
  datatype StartOutcome =
    | AlreadyRunning              // a machine is running: only the status changes
    | NoIsoStored                 // no name in storage: the upload dialog opens instead
    | LoadFailed                  // the library could not be loaded: the error is reported
    | Created(config: EmulatorConfig)

  class ManualIsoVm {
    /** The running library instance, recorded as the configuration it was created with. */
    var emulator: Option<EmulatorConfig>
    var isRunning: bool
    var isoFile: Option<IsoFile>
    /** The browser's local storage. */
    var storage: map<string, string>
    /** The "iso-info" label; None while the page default shows. */
    var isoInfo: Option<string>
    /** The commands sent to the emulator, oldest first. */
    var calls: seq<EmulatorCall>

    /** Only a created emulator can be running, and only an accepted file is kept. */
    ghost predicate Valid()
      reads this
    {
      (isRunning ==> emulator.Some?) &&
      (isoFile.Some? ==> CheckIso(isoFile.value) == Accepted)
    }

    /** Page load over the storage left by earlier visits. */
    constructor (stored: map<string, string>)
      ensures Valid()
      ensures emulator == None && !isRunning && isoFile == None && calls == []
      ensures storage == stored
      ensures isoInfo == StoredIsoName(stored)
    {
      emulator := None;
      isRunning := false;
      isoFile := None;
      storage := stored;
      isoInfo := None;
      calls := [];
      new;
      CheckStoredIso();
      UpdateSystemInfo();
      PageLoadLabelIgnoresSize(None, stored);
    }

    method CheckStoredIso()
      modifies this`isoInfo
      ensures isoInfo == AfterCheckStoredIso(old(isoInfo), storage)
    {
      var record := StoredIsoRecord(storage);
      if record.Some? {
        isoInfo := record;
      }
    }

    method UpdateSystemInfo()
      modifies this`isoInfo
      ensures isoInfo == AfterUpdateSystemInfo(old(isoInfo), storage)
    {
      var storedName := StoredIsoName(storage);
      if storedName.Some? {
        isoInfo := storedName;
      }
    }

    /** Keeps `file` when it passes the checks; a refused file leaves the previous choice. */
    method HandleModalFileSelect(file: IsoFile) returns (verdict: Verdict)
      requires Valid()
      modifies this`isoFile
      ensures Valid()
      ensures verdict == CheckIso(file)
      ensures isoFile == if verdict == Accepted then Some(file) else old(isoFile)
    {
      if !HasIsoExtension(file.name) {
        return NotAnIso;
      }
      if file.size > MAX_ISO_BYTES {
        return TooLarge;
      }
      isoFile := Some(file);
      verdict := Accepted;
    }

    /** Saves the chosen file's name and size; without a chosen file nothing happens. */
    method ConfirmIsoUpload()
      requires Valid()
      modifies this`storage, this`isoInfo
      ensures Valid()
      ensures isoFile.Some? ==> storage == Persist(old(storage), isoFile.value) && isoInfo == Some(isoFile.value.name)
      ensures isoFile.Some? ==> StoredIsoName(storage) == Some(isoFile.value.name)
      ensures isoFile.None? ==> storage == old(storage) && isoInfo == old(isoInfo)
    {
      match isoFile {
        case Some(f) =>
          PersistReadsBack(storage, f);
          storage := storage[ISO_NAME_KEY := f.name];
          storage := storage[ISO_SIZE_KEY := NatToString(f.size)];
          isoInfo := Some(f.name);
        case None =>
      }
    }

    /**
     * Starting is refused while running and without a stored name; otherwise,
     * once the library has loaded (`libraryLoaded`), a new emulator is created.
     * It is not running until it reports that it started.
     */
    method Start(libraryLoaded: bool) returns (outcome: StartOutcome)
      requires Valid()
      modifies this`emulator
      ensures Valid()
      ensures outcome ==
        if isRunning then AlreadyRunning
        else if StoredIsoName(storage).None? then NoIsoStored
        else if !libraryLoaded then LoadFailed
        else Created(ConfigFor(isoFile))
      ensures emulator == if outcome.Created? then Some(outcome.config) else old(emulator)
    {
      if isRunning {
        return AlreadyRunning;
      }
      var storedName := StoredIsoName(storage);
      if storedName.None? {
        return NoIsoStored;
      }
      if !libraryLoaded {
        return LoadFailed;
      }
      var config := EmulatorConfig(BIOS_URL, VGA_BIOS_URL, MEMORY_SIZE, VGA_MEMORY_SIZE, BOOT_ORDER,
        NETWORK_RELAY_URL, RemoteImage(DEFAULT_LINUX_ISO));
      if isoFile.Some? {
        config := config.(cdrom := LocalFile(isoFile.value));
      }
      emulator := Some(config);
      outcome := Created(config);
    }

    /** The emulator's "emulator-started" event: the one place a machine starts running. */
    method OnStarted()
      requires Valid() && emulator.Some?
      modifies this`isRunning
      ensures Valid() && isRunning
    {
      isRunning := true;
    }

    method Stop()
      requires Valid()
      modifies this`isRunning, this`calls
      ensures Valid()
      ensures old(emulator.Some? && isRunning) ==> !isRunning && calls == old(calls) + [StopCall]
      ensures !old(emulator.Some? && isRunning) ==> isRunning == old(isRunning) && calls == old(calls)
    {
      if emulator.Some? && isRunning {
        calls := calls + [StopCall];
        isRunning := false;
      }
    }

    /** Restarts an existing emulator, running or not; `isRunning` is never touched. */
    method Reset()
      requires Valid()
      modifies this`calls
      ensures Valid()
      ensures calls == if emulator.Some? then old(calls) + [RestartCall] else old(calls)
    {
      if emulator.Some? {
        calls := calls + [RestartCall];
      }
    }

    method SendCtrlAltDel() returns (sent: bool)
      requires Valid()
      modifies this`calls
      ensures Valid()
      ensures sent <==> emulator.Some? && isRunning
      ensures calls == if sent then old(calls) + [SendScancodes(CTRL_ALT_DEL)] else old(calls)
    {
      if emulator.Some? && isRunning {
        calls := calls + [SendScancodes(CTRL_ALT_DEL)];
        sent := true;
      } else {
        sent := false;
      }
    }
  }

  /**
   * After a reload the chosen file is gone but its name is still stored:
   * starting then boots the demo image, not the file.
   */
  method ReloadBootsDefaultImage(stored: map<string, string>) returns (outcome: StartOutcome)
    requires StoredIsoName(stored).Some?
    ensures outcome == Created(ConfigFor(None))
    ensures outcome.config.cdrom == RemoteImage(DEFAULT_LINUX_ISO)
  {
    var vm := new ManualIsoVm(stored);
    outcome := vm.Start(true);
  }

  /** Choosing a file, confirming it and starting boots that file and saves its record. */
  method UploadThenStart(stored: map<string, string>, file: IsoFile) returns (outcome: StartOutcome, saved: map<string, string>)
    requires CheckIso(file) == Accepted
    ensures outcome == Created(ConfigFor(Some(file)))
    ensures outcome.config.cdrom == LocalFile(file)
    ensures saved == Persist(stored, file)
  {
    var vm := new ManualIsoVm(stored);
    var verdict := vm.HandleModalFileSelect(file);
    vm.ConfirmIsoUpload();
    outcome := vm.Start(true);
    saved := vm.storage;
  }

  /**
   * A freshly created emulator takes no keyboard or stop command until it
   * reports that it started; then Ctrl+Alt+Del goes through.
   */
  method CommandsWaitForStart(stored: map<string, string>) returns (early: bool, late: bool, sentCalls: seq<EmulatorCall>)
    requires StoredIsoName(stored).Some?
    ensures !early && late
    ensures sentCalls == [SendScancodes(CTRL_ALT_DEL)]
  {
    var vm := new ManualIsoVm(stored);
    var outcome := vm.Start(true);
    early := vm.SendCtrlAltDel();
    vm.Stop();
    vm.OnStarted();
    late := vm.SendCtrlAltDel();
    sentCalls := vm.calls;
  }
}
