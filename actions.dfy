/**
 * The argument decoding and decisions of the built-in actions of
 * src/action_cc.cc. The Nickel objects the actions drive (the Bluetooth and
 * wireless managers, the settings store) are classes whose methods record
 * the calls made on them; the current screen orientation, the firmware's
 * navigation style, process start-up and process runs are inputs.
 */
module Actions {
  import opened Wrappers
  import opened Text
  import opened MenuItems

  /** What an action ends with: its result, or the error it sets. */
  type Outcome = Result<ActionResult, string>

  /** `strtrim`, which passes a NULL through. */
  function Trim(s: Option<string>): Option<string> {
    if s.None? then None else Some(TrimC(s.value))
  }

  /** `strtrim(strsep(&p, ":"))` followed by `strtrim(p)`: the trimmed text
    * before the first ':' and the trimmed rest, None when there is no ':'. */
  function CutColon(arg: string): (string, Option<string>) {
    var cut := StrSep(arg, ':');
    (TrimC(cut.0), Trim(cut.1))
  }

  predicate IsNameChar(c: char) {
    'a' <= c <= 'z' || c == '_'
  }

  /** A plain name, as the actions' keywords are written. */
  predicate IsName(s: string) {
    |s| > 0 && forall i :: 0 <= i < |s| ==> IsNameChar(s[i])
  }

  /** A string with no ':' that neither starts nor ends with C space is cut
    * whole, with no rest. */
  lemma CutPlain(a: string)
    requires ':' !in a && |a| > 0 && !IsCSpace(a[0]) && !IsCSpace(a[|a| - 1])
    ensures CutColon(a) == (a, None)
  {
    TrimCKeeps(a);
  }

  lemma NameKeeps(name: string)
    requires IsName(name)
    ensures TrimC(name) == name && ':' !in name
  {
    assert IsNameChar(name[0]) && IsNameChar(name[|name| - 1]);
    TrimCKeeps(name);
    assert forall i :: 0 <= i < |name| ==> name[i] != ':' by {
      forall i | 0 <= i < |name| ensures name[i] != ':' {
        assert IsNameChar(name[i]);
      }
    }
  }

  /** Cutting "<a>:<b>" for two plain names gives the names back. */
  lemma CutNames(a: string, b: string)
    requires IsName(a) && IsName(b)
    ensures CutColon(a + ":" + b) == (a, Some(b))
  {
    NameKeeps(a);
    NameKeeps(b);
    CutTrimmed(a, b);
  }

  /** Cutting "<a>:<b>" where `a` has no ':' and both are trimmed. */
  lemma CutTrimmed(a: string, b: string)
    requires ':' !in a && TrimC(a) == a && TrimC(b) == b
    ensures CutColon(a + ":" + b) == (a, Some(b))
  {
    assert a + ":" + b == a + [':'] + b;
    StrSepAt(a, ':', b);
  }

  // ---------------------------------------------------------------------
  // nickel_orientation

  /** `Qt::ScreenOrientation`; `OtherOrientation` is any value outside it. */
  datatype Orientation = PrimaryOrientation | Portrait | Landscape | InvertedPortrait | InvertedLandscape | OtherOrientation(code: int)

  predicate Concrete(o: Orientation) {
    o.Portrait? || o.Landscape? || o.InvertedPortrait? || o.InvertedLandscape?
  }

  predicate IsInverted(o: Orientation) {
    o.InvertedPortrait? || o.InvertedLandscape?
  }

  predicate IsLandscape(o: Orientation) {
    o.Landscape? || o.InvertedLandscape?
  }

  /** The orientation "invert" (`invert` true) or "swap" leads to from `o`. */
  function Rotated(o: Orientation, invert: bool): Result<Orientation, string> {
    match o
    case PrimaryOrientation => Err("could not get current screen orientation")
    case Portrait => Ok(if invert then InvertedPortrait else Landscape)
    case Landscape => Ok(if invert then InvertedLandscape else Portrait)
    case InvertedPortrait => Ok(if invert then Portrait else InvertedLandscape)
    case InvertedLandscape => Ok(if invert then Landscape else InvertedPortrait)
    case OtherOrientation(c) => Err("unknown screen orientation " + IntToDecimal(c))
  }

  /** `nickel_orientation`: the orientation to switch to. */
  function OrientationTarget(arg: string, current: Orientation): Result<Orientation, string> {
    if arg == "portrait" then Ok(Portrait)
    else if arg == "landscape" then Ok(Landscape)
    else if arg == "inverted_portrait" then Ok(InvertedPortrait)
    else if arg == "inverted_landscape" then Ok(InvertedLandscape)
    else if arg == "invert" || arg == "swap" then Rotated(current, arg == "invert")
    else Err("unknown nickel_orientation action '" + arg + "'")
  }

  /** "invert" flips the inversion and keeps the axis; "swap" flips the axis
    * and keeps the inversion; each undoes itself and moves every concrete
    * orientation. */
  lemma RotatedInvolution(o: Orientation, invert: bool)
    requires Concrete(o)
    ensures var r := Rotated(o, invert);
      r.Ok? && Concrete(r.value) && r.value != o && Rotated(r.value, invert) == Ok(o) &&
      (invert ==> IsLandscape(r.value) == IsLandscape(o) && IsInverted(r.value) != IsInverted(o)) &&
      (!invert ==> IsLandscape(r.value) != IsLandscape(o) && IsInverted(r.value) == IsInverted(o))
  {
  }

  /** "invert" and "swap" read the screen; the other arguments do not. */
  lemma OrientationFixed(arg: string, a: Orientation, b: Orientation)
    requires arg != "invert" && arg != "swap"
    ensures OrientationTarget(arg, a) == OrientationTarget(arg, b)
  {
  }

  // ---------------------------------------------------------------------
  // nickel_bluetooth

  datatype BtRequest = BtEnable | BtDisable | BtToggle | BtCheck | BtScan

  function ParseBluetooth(arg: string): Result<BtRequest, string> {
    if arg == "enable" then Ok(BtEnable)
    else if arg == "disable" then Ok(BtDisable)
    else if arg == "toggle" then Ok(BtToggle)
    else if arg == "check" then Ok(BtCheck)
    else if arg == "scan" then Ok(BtScan)
    else Err("unknown nickel_bluetooth action '" + arg + "'")
  }

  /** A toggle becomes a disable when Bluetooth is up and an enable otherwise. */
  function Resolve(req: BtRequest, isUp: bool): (r: BtRequest)
    ensures r != BtToggle
    ensures req != BtToggle ==> r == req
  {
    if req == BtToggle then (if isUp then BtDisable else BtEnable) else req
  }

  datatype BtCall = BtUp | BtOn | BtScanCall | BtStopScan | BtOff

  /** The calls an action makes after asking whether Bluetooth is up. */
  function BtCalls(req: BtRequest): seq<BtCall> {
    match req
    case BtEnable => [BtOn, BtScanCall]
    case BtDisable => [BtStopScan, BtOff]
    case BtScan => [BtScanCall]
    case _ => []
  }

  function BtToast(req: BtRequest, isUp: bool): string {
    match req
    case BtEnable => "Bluetooth turned on."
    case BtDisable => "Bluetooth turned off."
    case BtScan => "Bluetooth scan initiated."
    case _ => "Bluetooth is " + (if isUp then "on" else "off") + "."
  }

  /** `BluetoothManager`: whether it is up, and the calls made on it. */
  class BluetoothManager {
    var powered: bool
    var calls: seq<BtCall>

    constructor (powered: bool)
      ensures this.powered == powered && calls == []
    {
      this.powered := powered;
      calls := [];
    }

    method Up() returns (r: bool)
      modifies this
      ensures r == powered && powered == old(powered) && calls == old(calls) + [BtUp]
    {
      calls := calls + [BtUp];
      r := powered;
    }

    method On()
      modifies this
      ensures powered && calls == old(calls) + [BtOn]
    {
      calls := calls + [BtOn];
      powered := true;
    }

    method Off()
      modifies this
      ensures !powered && calls == old(calls) + [BtOff]
    {
      calls := calls + [BtOff];
      powered := false;
    }

    method Scan()
      modifies this
      ensures powered == old(powered) && calls == old(calls) + [BtScanCall]
    {
      calls := calls + [BtScanCall];
    }

    method StopScan()
      modifies this
      ensures powered == old(powered) && calls == old(calls) + [BtStopScan]
    {
      calls := calls + [BtStopScan];
    }
  }

  /** `nickel_bluetooth`: an unknown argument fails before the manager is
    * touched; otherwise it asks whether Bluetooth is up, resolves a toggle,
    * makes the calls of the resolved request and toasts what it did. */
  method NickelBluetooth(arg: string, btm: BluetoothManager) returns (r: Outcome)
    modifies btm
    ensures ParseBluetooth(arg).Err? ==>
      r == Err(ParseBluetooth(arg).error) && btm.calls == old(btm.calls) && btm.powered == old(btm.powered)
    ensures ParseBluetooth(arg).Ok? ==>
      var req := Resolve(ParseBluetooth(arg).value, old(btm.powered));
      r == Ok(Toast(BtToast(req, old(btm.powered)))) &&
      btm.calls == old(btm.calls) + [BtUp] + BtCalls(req) &&
      btm.powered == (if req == BtEnable then true else if req == BtDisable then false else old(btm.powered))
  {
    var parsed := ParseBluetooth(arg);
    if parsed.Err? {
      return Err(parsed.error);
    }
    var isUp := btm.Up();
    var action := Resolve(parsed.value, isUp);
    match action {
      case BtCheck =>
        r := Ok(Toast("Bluetooth is " + (if isUp then "on" else "off") + "."));
      case BtEnable =>
        btm.On();
        btm.Scan();
        r := Ok(Toast("Bluetooth turned on."));
      case BtDisable =>
        btm.StopScan();
        btm.Off();
        r := Ok(Toast("Bluetooth turned off."));
      case BtScan =>
        btm.Scan();
        r := Ok(Toast("Bluetooth scan initiated."));
    }
  }

  /** Toggling twice turns Bluetooth off and back on (or the reverse), with a
    * toast for each. */
  method ToggleBluetoothTwice(powered: bool) returns (first: Outcome, second: Outcome, after: bool)
    ensures first == Ok(Toast(if powered then "Bluetooth turned off." else "Bluetooth turned on."))
    ensures second == Ok(Toast(if powered then "Bluetooth turned on." else "Bluetooth turned off."))
    ensures after == powered
  {
    var btm := new BluetoothManager(powered);
    first := NickelBluetooth("toggle", btm);
    second := NickelBluetooth("toggle", btm);
    after := btm.powered;
  }

  // ---------------------------------------------------------------------
  // nickel_wifi

  datatype WifiCall = ConnectWireless(a: bool, b: bool) | ConnectWirelessSilently | IsAirplaneMode | SetAirplaneMode(on: bool)

  /** `WirelessWorkflowManager`: airplane mode, and the calls made on it. */
  class WirelessManager {
    var airplane: bool
    var calls: seq<WifiCall>

    constructor (airplane: bool)
      ensures this.airplane == airplane && calls == []
    {
      this.airplane := airplane;
      calls := [];
    }

    method Call(c: WifiCall)
      modifies this
      ensures calls == old(calls) + [c]
      ensures airplane == if c.SetAirplaneMode? then c.on else old(airplane)
    {
      calls := calls + [c];
      if c.SetAirplaneMode? {
        airplane := c.on;
      }
    }
  }

  /** The calls `nickel_wifi` makes for `arg` with airplane mode `airplane`
    * on, or None for an unknown argument. */
  function WifiCalls(arg: string, airplane: bool): Option<seq<WifiCall>> {
    if arg == "autoconnect" then Some([ConnectWireless(true, false)])
    else if arg == "autoconnect_silent" then Some([ConnectWirelessSilently])
    else if arg == "enable" then Some([IsAirplaneMode] + (if airplane then [SetAirplaneMode(false)] else []))
    else if arg == "disable" then Some([IsAirplaneMode] + (if !airplane then [SetAirplaneMode(true)] else []))
    else if arg == "toggle" then Some([IsAirplaneMode, SetAirplaneMode(!airplane)])
    else None
  }

  /** Airplane mode after `nickel_wifi`. */
  function AirplaneAfter(arg: string, airplane: bool): bool {
    if arg == "enable" then false
    else if arg == "disable" then true
    else if arg == "toggle" then !airplane
    else airplane
  }

  /** `nickel_wifi`. */
  method NickelWifi(arg: string, wfm: WirelessManager) returns (r: Outcome)
    modifies wfm
    ensures r == if WifiCalls(arg, old(wfm.airplane)).Some? then Ok(Silent) else Err("unknown wifi action '" + arg + "'")
    ensures wfm.calls == old(wfm.calls) + (if WifiCalls(arg, old(wfm.airplane)).Some? then WifiCalls(arg, old(wfm.airplane)).value else [])
    ensures wfm.airplane == AirplaneAfter(arg, old(wfm.airplane))
  {
    if arg == "autoconnect" {
      wfm.Call(ConnectWireless(true, false));
    } else if arg == "autoconnect_silent" {
      wfm.Call(ConnectWirelessSilently);
    } else if arg == "enable" || arg == "disable" || arg == "toggle" {
      var e := wfm.airplane;
      wfm.Call(IsAirplaneMode);
      if arg == "enable" {
        if e {
          wfm.Call(SetAirplaneMode(false));
        }
      } else if arg == "disable" {
        if !e {
          wfm.Call(SetAirplaneMode(true));
        }
      } else if arg == "toggle" {
        wfm.Call(SetAirplaneMode(!e));
      }
    } else {
      return Err("unknown wifi action '" + arg + "'");
    }
    return Ok(Silent);
  }

  /** Enabling Wi-Fi twice sets airplane mode at most once: the second call
    * only reads it. */
  method EnableWifiTwice(airplane: bool) returns (calls: seq<WifiCall>, after: bool)
    ensures !after
    ensures calls == [IsAirplaneMode] + (if airplane then [SetAirplaneMode(false)] else []) + [IsAirplaneMode]
  {
    var wfm := new WirelessManager(airplane);
    var r1 := NickelWifi("enable", wfm);
    var r2 := NickelWifi("enable", wfm);
    calls, after := wfm.calls, wfm.airplane;
  }

  // ---------------------------------------------------------------------
  // nickel_setting

  datatype SettingMode = ToggleMode | EnableMode | DisableMode

  /** The settings `nickel_setting` knows, by the store entry each one writes. */
  datatype SettingKey = InvertScreen | Screenshots | DarkMode | UnlockEnabled | ForceWifiOn | AutoUsbGadget

  function ModeOf(name: string): Option<SettingMode> {
    if name == "toggle" then Some(ToggleMode)
    else if name == "enable" then Some(EnableMode)
    else if name == "disable" then Some(DisableMode)
    else None
  }

  function SettingOf(name: string): Option<SettingKey> {
    if name == "invert" then Some(InvertScreen)
    else if name == "screenshots" then Some(Screenshots)
    else if name == "dark_mode" then Some(DarkMode)
    else if name == "lockscreen" then Some(UnlockEnabled)
    else if name == "force_wifi" then Some(ForceWifiOn)
    else if name == "auto_usb_gadget" then Some(AutoUsbGadget)
    else None
  }

  function ModeName(m: SettingMode): string {
    match m
    case ToggleMode => "toggle"
    case EnableMode => "enable"
    case DisableMode => "disable"
  }

  function SettingName(k: SettingKey): string {
    match k
    case InvertScreen => "invert"
    case Screenshots => "screenshots"
    case DarkMode => "dark_mode"
    case UnlockEnabled => "lockscreen"
    case ForceWifiOn => "force_wifi"
    case AutoUsbGadget => "auto_usb_gadget"
  }

  datatype SettingRequest = SettingRequest(mode: SettingMode, key: SettingKey, name: string)

  /** The argument of `nickel_setting`, "<mode>:<setting>". */
  function ParseSetting(arg: string): Result<SettingRequest, string> {
    var (arg1, arg2) := CutColon(arg);
    if arg2.None? then Err("could not find a : in the argument")
    else if ModeOf(arg1).None? then
      Err("unknown action '" + arg1 + "' for nickel_setting: expected 'toggle', 'enable', or 'disable'")
    else if SettingOf(arg2.value).None? then
      Err("unknown setting name '" + arg2.value + "' (arg: '" + arg + "')")
    else Ok(SettingRequest(ModeOf(arg1).value, SettingOf(arg2.value).value, arg2.value))
  }

  /** The value written: on for enable, off for disable, the opposite of the
    * current value for toggle. */
  function NewValue(mode: SettingMode, current: bool): bool {
    match mode
    case ToggleMode => !current
    case EnableMode => true
    case DisableMode => false
  }

  /** A toast naming the new state, except for the settings whose effect is
    * plain to see. */
  function SettingResult(key: SettingKey, name: string, value: bool): ActionResult {
    if key == InvertScreen || key == DarkMode then Silent
    else Toast((if value then "enabled" else "disabled") + " " + name)
  }

  /** The Nickel settings, each off until written. */
  class SettingsStore {
    var values: map<SettingKey, bool>

    constructor (values: map<SettingKey, bool>)
      ensures this.values == values
    {
      this.values := values;
    }

    function Get(k: SettingKey): bool
      reads this
    {
      if k in values then values[k] else false
    }

    method Set(k: SettingKey, v: bool)
      modifies this
      ensures values == old(values)[k := v]
    {
      values := values[k := v];
    }
  }

  /** `nickel_setting`. */
  method NickelSetting(arg: string, settings: SettingsStore) returns (r: Outcome)
    modifies settings
    ensures ParseSetting(arg).Err? ==> r == Err(ParseSetting(arg).error) && settings.values == old(settings.values)
    ensures ParseSetting(arg).Ok? ==>
      var req := ParseSetting(arg).value;
      var value := NewValue(req.mode, old(settings.Get(req.key)));
      settings.values == old(settings.values)[req.key := value] &&
      r == Ok(SettingResult(req.key, req.name, value))
  {
    var cut := CutColon(arg);
    var arg1, arg2 := cut.0, cut.1;
    if arg2.None? {
      return Err("could not find a : in the argument");
    }
    var mode := ModeOf(arg1);
    if mode.None? {
      return Err("unknown action '" + arg1 + "' for nickel_setting: expected 'toggle', 'enable', or 'disable'");
    }
    var key := SettingOf(arg2.value);
    if key.None? {
      return Err("unknown setting name '" + arg2.value + "' (arg: '" + arg + "')");
    }
    var v := mode.value == DisableMode;
    if mode.value == ToggleMode {
      v := settings.Get(key.value);
    }
    settings.Set(key.value, !v);
    if key.value != InvertScreen && key.value != DarkMode {
      r := Ok(Toast((if v then "disabled" else "enabled") + " " + arg2.value));
    } else {
      r := Ok(Silent);
    }
  }

  lemma ModeNames(m: SettingMode)
    ensures IsName(ModeName(m)) && ModeOf(ModeName(m)) == Some(m)
  {
  }

  lemma SettingNames(k: SettingKey)
    ensures IsName(SettingName(k)) && SettingOf(SettingName(k)) == Some(k)
  {
  }

  /** Every mode and setting written as "<mode>:<setting>" is understood. */
  lemma ParseSettingNames(m: SettingMode, k: SettingKey)
    ensures ParseSetting(ModeName(m) + ":" + SettingName(k)) == Ok(SettingRequest(m, k, SettingName(k)))
  {
    var a, b := ModeName(m), SettingName(k);
    ModeNames(m);
    SettingNames(k);
    CutNames(a, b);
  }

  /** One toggle of a setting named by a parsed argument. */
  method ToggleSetting(arg: string, settings: SettingsStore, k: SettingKey, name: string) returns (r: Outcome)
    requires ParseSetting(arg) == Ok(SettingRequest(ToggleMode, k, name))
    modifies settings
    ensures settings.values == old(settings.values)[k := !old(settings.Get(k))]
    ensures r == Ok(SettingResult(k, name, !old(settings.Get(k))))
  {
    r := NickelSetting(arg, settings);
  }

  /** Toggling a setting twice restores it, reporting the two states in turn. */
  method ToggleSettingTwice(values: map<SettingKey, bool>, arg: string, k: SettingKey, name: string)
    returns (first: Outcome, second: Outcome, after: map<SettingKey, bool>)
    requires k in values && ParseSetting(arg) == Ok(SettingRequest(ToggleMode, k, name))
    ensures after == values
    ensures first == Ok(SettingResult(k, name, !values[k]))
    ensures second == Ok(SettingResult(k, name, values[k]))
  {
    var settings := new SettingsStore(values);
    first := ToggleSetting(arg, settings, k, name);
    second := ToggleSetting(arg, settings, k, name);
    after := settings.values;
    RestoredEntry(values, k, !values[k]);
  }

  /** Writing an entry and then writing its old value back restores the map. */
  lemma RestoredEntry(m: map<SettingKey, bool>, k: SettingKey, v: bool)
    requires k in m
    ensures m[k := v][k := m[k]] == m
  {
    assert m[k := v][k := m[k]] == m[k := m[k]];
  }

  // ---------------------------------------------------------------------
  // nickel_extras

  /** The mimetype of a built-in game. */
  function GameMimetype(game: string): string {
    "application/x-games-" + game
  }

  /** The plugin `nickel_extras` loads: a mimetype given as such, or the one
    * of a named game. */
  function ExtrasMimetype(arg: string): Result<string, string> {
    if '/' in arg then Ok(arg)
    else if arg == "unblock_it" then Ok(GameMimetype("RushHour"))
    else if arg == "sketch_pad" then Ok(GameMimetype("Scribble"))
    else if arg == "solitaire" then Ok(GameMimetype("Solitaire"))
    else if arg == "sudoku" then Ok(GameMimetype("Sudoku"))
    else if arg == "word_scramble" then Ok(GameMimetype("Boggle"))
    else Err("unknown beta feature name or plugin mimetype '" + arg + "'")
  }

  /** A mimetype `nickel_extras` loads, given back to it, loads the same
    * plugin; a name without '/' that is not a game is refused. */
  lemma ExtrasMimetypeStable(arg: string)
    ensures ExtrasMimetype(arg).Ok? ==> ExtrasMimetype(ExtrasMimetype(arg).value) == ExtrasMimetype(arg)
    ensures ExtrasMimetype(arg).Ok? ==> '/' in ExtrasMimetype(arg).value
  {
    if ExtrasMimetype(arg).Ok? && '/' !in arg {
      var m := ExtrasMimetype(arg).value;
      var game :| m == GameMimetype(game);
      assert m[11] == "application/x-games-"[11] == '/';
    }
  }

  // ---------------------------------------------------------------------
  // nickel_open

  datatype NavCategory = Discover | LibraryNav | ReadingLife | StoreNav

  datatype NavView =
    | Storefront | Wishlist
    | LastLibraryTab | AllItems | Authors | Series | Shelves | Pocket | Dropbox | GoogleDrive
    | ChooseActivity | Stats | Awards | MyWords
    | OverDrive | StoreSearch

  /** What `nickel_open` calls: a view of a navigation mixin, or, on firmware
    * with the new navigation bar, the Dropbox or Google Drive page of the
    * "More" controller. */
  datatype OpenTarget = NavMixin(category: NavCategory, view: NavView) | MoreDropbox | MoreGoogleDrive

  function CategoryOf(name: string): Option<NavCategory> {
    if name == "discover" then Some(Discover)
    else if name == "library" then Some(LibraryNav)
    else if name == "reading_life" then Some(ReadingLife)
    else if name == "store" then Some(StoreNav)
    else None
  }

  function ViewOf(c: NavCategory, name: string): Option<NavView> {
    match c
    case Discover =>
      if name == "storefront" then Some(Storefront)
      else if name == "wishlist" then Some(Wishlist)
      else None
    case LibraryNav =>
      if name == "library" then Some(LastLibraryTab)
      else if name == "all" then Some(AllItems)
      else if name == "authors" then Some(Authors)
      else if name == "series" then Some(Series)
      else if name == "shelves" then Some(Shelves)
      else if name == "pocket" then Some(Pocket)
      else if name == "dropbox" then Some(Dropbox)
      else if name == "gdrive" then Some(GoogleDrive)
      else None
    case ReadingLife =>
      if name == "reading_life" then Some(ChooseActivity)
      else if name == "stats" then Some(Stats)
      else if name == "awards" then Some(Awards)
      else if name == "words" then Some(MyWords)
      else None
    case StoreNav =>
      if name == "overdrive" then Some(OverDrive)
      else if name == "search" then Some(StoreSearch)
      else None
  }

  function CategoryName(c: NavCategory): string {
    match c
    case Discover => "discover"
    case LibraryNav => "library"
    case ReadingLife => "reading_life"
    case StoreNav => "store"
  }

  function ViewName(v: NavView): string {
    match v
    case Storefront => "storefront"
    case Wishlist => "wishlist"
    case LastLibraryTab => "library"
    case AllItems => "all"
    case Authors => "authors"
    case Series => "series"
    case Shelves => "shelves"
    case Pocket => "pocket"
    case Dropbox => "dropbox"
    case GoogleDrive => "gdrive"
    case ChooseActivity => "reading_life"
    case Stats => "stats"
    case Awards => "awards"
    case MyWords => "words"
    case OverDrive => "overdrive"
    case StoreSearch => "search"
  }

  /** The category a view belongs to. */
  function CategoryOfView(v: NavView): NavCategory {
    if v.Storefront? || v.Wishlist? then Discover
    else if v.ChooseActivity? || v.Stats? || v.Awards? || v.MyWords? then ReadingLife
    else if v.OverDrive? || v.StoreSearch? then StoreNav
    else LibraryNav
  }

  /** `nickel_open`: "<category>:<view>". */
  function Open(arg: string, newNav: bool): Result<OpenTarget, string> {
    var (arg1, arg2) := CutColon(arg);
    if arg2.None? then Err("could not find a : in the argument")
    else if newNav && arg1 == "library" && arg2.value == "dropbox" then Ok(MoreDropbox)
    else if newNav && arg1 == "library" && arg2.value == "gdrive" then Ok(MoreGoogleDrive)
    else if CategoryOf(arg1).None? then
      Err("unknown category '" + arg1 + "' (in '" + arg1 + ":" + arg2.value + "')")
    else if ViewOf(CategoryOf(arg1).value, arg2.value).None? then
      Err("unknown view '" + arg2.value + "' (in '" + arg1 + ":" + arg2.value + "')")
    else Ok(NavMixin(CategoryOf(arg1).value, ViewOf(CategoryOf(arg1).value, arg2.value).value))
  }

  /** The table names each view once, under its own category. */
  lemma ViewTable(c: NavCategory, name: string)
    ensures ViewOf(c, name).Some? <==> exists v :: CategoryOfView(v) == c && ViewName(v) == name
    ensures ViewOf(c, name).Some? ==> CategoryOfView(ViewOf(c, name).value) == c && ViewName(ViewOf(c, name).value) == name
  {
    if ViewOf(c, name).Some? {
      var v := ViewOf(c, name).value;
      assert CategoryOfView(v) == c && ViewName(v) == name;
    }
  }

  lemma ViewNames(v: NavView)
    ensures IsName(CategoryName(CategoryOfView(v))) && IsName(ViewName(v))
  {
    CategoryNames(CategoryOfView(v));
    match v
    case Storefront =>
    case Wishlist =>
    case LastLibraryTab =>
    case AllItems =>
    case Authors =>
    case Series =>
    case Shelves =>
    case Pocket =>
    case Dropbox =>
    case GoogleDrive =>
    case ChooseActivity =>
    case Stats =>
    case Awards =>
    case MyWords =>
    case OverDrive =>
    case StoreSearch =>
  }

  lemma CategoryNames(c: NavCategory)
    ensures IsName(CategoryName(c))
  {
    match c
    case Discover =>
    case LibraryNav =>
    case ReadingLife =>
    case StoreNav =>
  }

  lemma ViewTableNames(v: NavView)
    ensures CategoryOf(CategoryName(CategoryOfView(v))) == Some(CategoryOfView(v))
    ensures ViewOf(CategoryOfView(v), ViewName(v)) == Some(v)
  {
  }

  lemma CloudViewNames(v: NavView)
    ensures ViewName(v) == "dropbox" <==> v == Dropbox
    ensures ViewName(v) == "gdrive" <==> v == GoogleDrive
  {
  }

  /** Every view opens from "<category>:<view>", the cloud pages through the
    * "More" controller on firmware with the new navigation bar. */
  lemma OpenNames(v: NavView, newNav: bool)
    ensures Open(CategoryName(CategoryOfView(v)) + ":" + ViewName(v), newNav) ==
      if newNav && v == Dropbox then Ok(MoreDropbox)
      else if newNav && v == GoogleDrive then Ok(MoreGoogleDrive)
      else Ok(NavMixin(CategoryOfView(v), v))
  {
    var c := CategoryOfView(v);
    var a, b := CategoryName(c), ViewName(v);
    ViewCut(v);
    ViewTableNames(v);
    CloudViewNames(v);
    OpenParts(a + ":" + b, a, b, newNav);
    CloudInLibrary(v);
  }

  lemma CloudInLibrary(v: NavView)
    ensures v == Dropbox || v == GoogleDrive ==> CategoryName(CategoryOfView(v)) == "library"
  {
  }

  /** "<category>:<view>" cuts into the two names. */
  lemma ViewCut(v: NavView)
    ensures CutColon(CategoryName(CategoryOfView(v)) + ":" + ViewName(v)) ==
      (CategoryName(CategoryOfView(v)), Some(ViewName(v)))
  {
    ViewNames(v);
    CutNames(CategoryName(CategoryOfView(v)), ViewName(v));
  }

  /** `nickel_open` once the argument is cut into a category and a view. */
  lemma OpenParts(arg: string, a: string, b: string, newNav: bool)
    requires CutColon(arg) == (a, Some(b))
    ensures newNav && a == "library" && b == "dropbox" ==> Open(arg, newNav) == Ok(MoreDropbox)
    ensures newNav && a == "library" && b == "gdrive" ==> Open(arg, newNav) == Ok(MoreGoogleDrive)
    ensures (!(newNav && a == "library" && (b == "dropbox" || b == "gdrive")) && CategoryOf(a).Some? &&
             ViewOf(CategoryOf(a).value, b).Some?) ==>
      Open(arg, newNav) == Ok(NavMixin(CategoryOf(a).value, ViewOf(CategoryOf(a).value, b).value))
  {
  }

  // ---------------------------------------------------------------------
  // cmd_spawn and cmd_output

  /** The "quiet:" option of the command actions: whether it is given, and
    * the command, trimmed after the option or `arg` unchanged without it. */
  function QuietPrefix(arg: string): (bool, string) {
    var cut := StrSep(arg, ':');
    var quiet := cut.1.Some? && TrimC(cut.0) == "quiet";
    (quiet, if quiet then TrimC(cut.1.value) else arg)
  }

  /** "quiet:" before a command (with any spacing) selects quiet mode and
    * leaves the trimmed command. */
  lemma QuietPrefixGiven(pre: string, cmd: string)
    requires ':' !in pre && TrimC(pre) == "quiet"
    ensures QuietPrefix(pre + ":" + cmd) == (true, TrimC(cmd))
  {
    StrSepAt(pre, ':', cmd);
    assert pre + ":" + cmd == pre + [':'] + cmd;
  }

  /** Without a ':' the command is the argument, unchanged and not quiet. */
  lemma QuietPrefixAbsent(arg: string)
    requires ':' !in arg
    ensures QuietPrefix(arg) == (false, arg)
  {
  }

  /** Anything but "quiet" before the first ':' leaves the argument whole. */
  lemma QuietPrefixOther(arg: string)
    requires TrimC(StrSep(arg, ':').0) != "quiet"
    ensures QuietPrefix(arg) == (false, arg)
  {
  }

  /** `cmd_spawn`: starts `/bin/sh -c <command>` detached; `start` gives the
    * process id, or None when it could not be started. The id is printed as
    * a 32-bit `unsigned long`. */
  function CmdSpawn(arg: string, start: string -> Option<nat>): Outcome {
    var (quiet, cmd) := QuietPrefix(arg);
    var pid := start(cmd);
    if pid.None? then Err("could not start process")
    else if quiet then Ok(Silent)
    else Ok(Toast("Successfully started process with PID " + NatToDecimal(pid.value % 0x1_0000_0000) + "."))
  }

  /** A quiet spawn shows nothing; a spawn that is not quiet toasts the id. */
  lemma CmdSpawnToast(arg: string, start: string -> Option<nat>)
    requires start(QuietPrefix(arg).1).Some?
    ensures CmdSpawn(arg, start).Ok?
    ensures CmdSpawn(arg, start).value.Silent? <==> QuietPrefix(arg).0
    ensures !QuietPrefix(arg).0 ==> HasPrefix(CmdSpawn(arg, start).value.msg, "Successfully started process with PID ")
  {
  }

  /** How a `cmd_output` process run ended. */
  datatype ProcResult =
    | Finished(normalExit: bool, exitCode: int, output: string)
    | TimedOut | FailedToStart | Crashed | UnknownError

  const OutputLimit: nat := 500

  /** Output longer than 500 characters is cut to 500 followed by "...". */
  function Truncated(out: string): (r: string)
    ensures |r| <= OutputLimit + 3
    ensures |out| <= OutputLimit ==> r == out
    ensures |out| > OutputLimit ==> HasPrefix(r, out[..OutputLimit]) && r[OutputLimit..] == "..."
  {
    if |out| > OutputLimit then out[..OutputLimit] + "..." else out
  }

  /** The timeout field of `cmd_output`: a whole `strtol` number of
    * milliseconds from 1 to 9999. */
  function Timeout(t: string): Option<nat> {
    var (n, whole) := Strtol(t);
    if |t| > 0 && whole && 0 < n < 10000 then Some(n) else None
  }

  /** The argument of `cmd_output` as the action reads it: the trimmed
    * timeout field, its value if valid, and the command after the first ':'
    * (None when there is no ':'). */
  function OutputArgsAsWritten(arg: string): (string, Option<nat>, Option<string>) {
    var (t, cmd) := CutColon(arg);
    (t, Timeout(t), cmd)
  }

  /** A valid timeout with no ':' passes the check and leaves no command for
    * the quiet-option parsing to duplicate. */
  lemma OutputNullCommand(t: string)
    requires |t| > 0 && AllDigits(t) && 0 < DigitsValue(t) < 10000
    ensures OutputArgsAsWritten(t) == (t, Some(DigitsValue(t)), None)
  {
    DigitsPlain(t);
    CutPlain(t);
    StrtolDigits(t);
  }

  /** A run of digits has no ':' and no space to trim. */
  lemma DigitsPlain(t: string)
    requires |t| > 0 && AllDigits(t)
    ensures ':' !in t && !IsCSpace(t[0]) && !IsCSpace(t[|t| - 1]) && TrimC(t) == t
  {
    assert IsDigit(t[0]) && IsDigit(t[|t| - 1]);
    TrimCKeeps(t);
    assert forall i :: 0 <= i < |t| ==> t[i] != ':' by {
      forall i | 0 <= i < |t| ensures t[i] != ':' {
        assert IsDigit(t[i]);
      }
    }
  }

  datatype OutputRequest = OutputRequest(timeout: nat, quiet: bool, cmd: string)

  /** The argument of `cmd_output`, "<timeout>:[quiet:]<command>", with a
    * missing ':' reported as an error. */
  function OutputArgs(arg: string): (r: Result<OutputRequest, string>)
    ensures r.Ok? ==> ':' in arg && 0 < r.value.timeout < 10000
  {
    var (t, cmd) := CutColon(arg);
    if Timeout(t).None? then Err("invalid timeout '" + t + "'")
    else if cmd.None? then Err("could not find a : in the argument")
    else
      var (quiet, c) := QuietPrefix(cmd.value);
      Ok(OutputRequest(Timeout(t).value, quiet, c))
  }

  /** A timeout written in digits is accepted exactly when it is from 1 to 9999. */
  lemma OutputTimeoutDigits(t: string, cmd: string)
    requires |t| > 0 && AllDigits(t)
    ensures OutputArgs(t + ":" + cmd).Ok? <==> 1 <= DigitsValue(t) <= 9999
    ensures OutputArgs(t + ":" + cmd).Ok? ==> OutputArgs(t + ":" + cmd).value.timeout == DigitsValue(t)
  {
    DigitsPlain(t);
    StrSepAt(t, ':', cmd);
    assert t + ":" + cmd == t + [':'] + cmd;
    StrtolDigits(t);
  }

  /** `cmd_output`: runs the command with the timeout through `run`; a
    * failed run or a nonzero exit status is an error; otherwise the
    * (truncated) output is shown, rendered by `html`, unless quiet. */
  function CmdOutput(arg: string, run: (nat, string) -> ProcResult, html: string -> string): Outcome {
    match OutputArgs(arg)
    case Err(e) => Err(e)
    case Ok(req) =>
      match run(req.timeout, req.cmd)
      case TimedOut => Err("could not run process: timed out")
      case FailedToStart => Err("could not run process: missing program or wrong permissions")
      case Crashed => Err("could not run process: process crashed")
      case UnknownError => Err("could not run process")
      case Finished(normal, code, out) =>
        if normal && code != 0 then Err("could not run process: process exited with status " + IntToDecimal(code))
        else if req.quiet then Ok(Silent)
        else Ok(Msg(html(Truncated(out))))
  }

  /** A run that exits normally with status 0 shows its output, cut to 500
    * characters, unless quiet. */
  lemma CmdOutputShows(arg: string, run: (nat, string) -> ProcResult, html: string -> string)
    requires OutputArgs(arg).Ok?
    requires var req := OutputArgs(arg).value; run(req.timeout, req.cmd).Finished? && run(req.timeout, req.cmd).exitCode == 0
    ensures var req := OutputArgs(arg).value;
      CmdOutput(arg, run, html) == if req.quiet then Ok(Silent) else Ok(Msg(html(Truncated(run(req.timeout, req.cmd).output))))
  {
  }
}
