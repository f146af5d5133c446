/** The application configuration (`AppConfig`): its sections and defaults,
    the hex-or-decimal reading of the USB vendor and product ids, the log-level
    mapping, and the INI text `save` writes. */
module Config {
  import opened Wrappers
  import opened Bytes
  import opened Text
  import opened IntParse
  import opened IndexMaps

  const DEFAULT_VID: u16 := 0x1908
  const DEFAULT_PID: u16 := 0x0102

  datatype LcdConfig = LcdConfig(backlight: byte, width: u16, height: u16, file: string,
                                 polling: u64, vid: u16, pid: u16)
  datatype DashboardConfig = DashboardConfig(file: string, enabled: bool, saveToFile: bool)
  datatype LoggingConfig = LoggingConfig(level: string)
  datatype ResourcesConfig = ResourcesConfig(disks: seq<string>, networks: seq<string>,
                                             mountPoints: seq<string>, sensors: IndexMap<string, string>)
  datatype AppConfig = AppConfig(lcd: LcdConfig, dashboard: DashboardConfig,
                                 resources: ResourcesConfig, logging: LoggingConfig)

  /** `deserialize_hex_or_int`: a value starting with "0x" or "0X" is the u16
      whose base-16 digits follow; any other value is read as a decimal u16. */
  function ParseHexOrInt(value: string): (r: Result<u16, IntErrorKind>)
    ensures r.Success? && (StartsWith(value, "0x") || StartsWith(value, "0X")) ==>
      FromStrRadix(value[2..], 16, 0x1_0000) == Success(r.value as nat)
    ensures r.Success? && !(StartsWith(value, "0x") || StartsWith(value, "0X")) ==>
      FromStrRadix(value, 10, 0x1_0000) == Success(r.value as nat)
  {
    var parsed :=
      if StartsWith(value, "0x") || StartsWith(value, "0X") then FromStrRadix(value[2..], 16, 0x1_0000)
      else FromStrRadix(value, 10, 0x1_0000);
    match parsed
    case Success(n) => Success(n)
    case Failure(e) => Failure(e)
  }

  /** A `vid` or `pid` entry: absent means the default, present means parsed. */
  function IdOrDefault(value: Option<string>, default: u16): (r: Result<u16, IntErrorKind>)
    ensures value.None? ==> r == Success(default)
  {
    match value
    case None => Success(default)
    case Some(v) => ParseHexOrInt(v)
  }

  /** A value written in hexadecimal, behind "0x" or "0X". */
  predicate IsHex(value: string)
  {
    StartsWith(value, "0x") || StartsWith(value, "0X")
  }

  /** The text handed to `from_str_radix` for a value, and its base. */
  function IdText(value: string): string
  {
    if IsHex(value) then value[2..] else value
  }

  function IdRadix(value: string): nat
  {
    if IsHex(value) then 16 else 10
  }

  /** A value is an error of kind Empty exactly when nothing follows the
      prefix; it is read exactly when the characters after the prefix and
      an optional '+' are all digits of its base and their value fits a
      u16, and then its id is that value; all digits with too large a
      value is PosOverflow. */
  lemma ParseHexOrIntValue(value: string)
    ensures ParseHexOrInt(value) == Failure(Empty) <==> IdText(value) == []
    ensures ParseHexOrInt(value).Success? <==>
      var ds := Unsigned(IdText(value));
      ds != [] && AllDigits(ds, IdRadix(value)) && DigitsValue(ds, IdRadix(value), 0) < 0x1_0000
    ensures ParseHexOrInt(value).Success? ==>
      ParseHexOrInt(value).value as nat == DigitsValue(Unsigned(IdText(value)), IdRadix(value), 0)
    ensures var ds := Unsigned(IdText(value));
      ds != [] && AllDigits(ds, IdRadix(value)) && DigitsValue(ds, IdRadix(value), 0) >= 0x1_0000 ==>
      ParseHexOrInt(value) == Failure(PosOverflow)
  {
    FromStrRadixValue(IdText(value), IdRadix(value), 0x1_0000);
  }

  /** A character that is not a digit of the value's base makes it an error. */
  lemma BadDigitRejected(value: string, i: nat)
    requires i < |Unsigned(IdText(value))|
    requires ToDigit(Unsigned(IdText(value))[i], IdRadix(value)).None?
    ensures ParseHexOrInt(value).Failure?
  {
    ParseHexOrIntValue(value);
  }

  /** A decimal id above 0xFFFF is PosOverflow. */
  lemma DecimalOverflowRejected(n: nat)
    requires n >= 0x1_0000
    ensures ParseHexOrInt(Decimal(n)) == Failure(PosOverflow)
  {
    var d := Decimal(n);
    DecimalValue(n);
    assert |d| >= 2 by {
      assert d == Decimal(n / 10) + [DecimalDigit(n % 10)];
    }
    assert '0' <= d[1] <= '9' && '0' <= d[0] <= '9';
    assert !IsHex(d) && Unsigned(d) == d;
    ParseHexOrIntValue(d);
  }

  /** The hexadecimal ids of the configuration tests read as written. */
  lemma HexExamples()
    ensures ParseHexOrInt("0x1234") == Success(0x1234)
    ensures ParseHexOrInt("0x0102") == Success(0x0102)
  {
    HexExample1234();
    HexExample0102();
  }

  lemma HexExample1234()
    ensures ParseHexOrInt("0x1234") == Success(0x1234)
  {
    Hex06Text(0x1234, '1', '2', '3', '4');
    SavedIdText(0x1234, "0x1234");
  }

  lemma HexExample0102()
    ensures ParseHexOrInt("0x0102") == Success(0x0102)
  {
    Hex06Text(0x0102, '0', '1', '0', '2');
    SavedIdText(0x0102, "0x0102");
  }

  /** An empty value, a bare "0x", a value above 0xFFFF and a stray letter are errors. */
  lemma RejectedExamples()
    ensures ParseHexOrInt("") == Failure(Empty)
    ensures ParseHexOrInt("0x") == Failure(Empty)
    ensures ParseHexOrInt("65536") == Failure(PosOverflow)
    ensures ParseHexOrInt("12a") == Failure(InvalidDigit)
  {
    assert "0x"[2..] == "";
    var s := "65536";
    DigitStep(s, 10, 0x1_0000, 0, 6);
    DigitStep(s[1..], 10, 0x1_0000, 6, 5);
    DigitStep(s[2..], 10, 0x1_0000, 65, 5);
    assert s[2..][1..] == s[3..];
    DigitStep(s[3..], 10, 0x1_0000, 655, 3);
    assert s[3..][1..] == s[4..];
    assert ParseDigits(s[4..], 10, 0x1_0000, 6553) == Failure(PosOverflow);
    var t := "12a";
    DigitStep(t, 10, 0x1_0000, 0, 1);
    DigitStep(t[1..], 10, 0x1_0000, 1, 2);
    assert t[1..][1..] == t[2..];
  }

  /** What `save` writes for an id (`{:#06x}`) reads back as the same id. */
  lemma {:induction false} SavedIdRoundTrip(v: u16)
    ensures ParseHexOrInt(Hex06(v)) == Success(v)
  {
    Hex06Digits(v);
    var h := Hex06(v);
    assert StartsWith(h, "0x");
    var digits := h[2..];
    assert digits[0] != '+' && digits[0] != '-';
    assert FromStrRadix(digits, 16, 0x1_0000) == ParseDigits(digits, 16, 0x1_0000, 0);
  }

  lemma SavedIdText(v: u16, text: string)
    requires Hex06(v) == text
    ensures ParseHexOrInt(text) == Success(v)
  {
    SavedIdRoundTrip(v);
  }

  /** A decimal id reads back as itself. */
  lemma {:induction false} DecimalIdRoundTrip(v: u16)
    ensures ParseHexOrInt(Decimal(v)) == Success(v)
  {
    DecimalRoundTrip(v, 0x1_0000);
    var d := Decimal(v);
    if |d| >= 2 {
      assert '0' <= d[1] <= '9';
    }
    assert !(StartsWith(d, "0x") || StartsWith(d, "0X"));
  }

  /** `log::LevelFilter` */
  datatype LevelFilter = Off | Error | Warn | Info | Debug | Trace

  /** The lower-case name of each level. */
  function LevelName(l: LevelFilter): string
  {
    match l
    case Off => "off"
    case Error => "error"
    case Warn => "warn"
    case Info => "info"
    case Debug => "debug"
    case Trace => "trace"
  }

  /** `get_log_level`: the configured level, matched case-insensitively;
      anything unrecognised is Info. */
  function LogLevelOf(level: string): (r: LevelFilter)
    ensures Lower(level) == LevelName(r) || (r == Info && forall l :: Lower(level) != LevelName(l))
  {
    match Lower(level)
    case "trace" => Trace
    case "debug" => Debug
    case "info" => Info
    case "warn" => Warn
    case "error" => Error
    case "off" => Off
    case _ => Info
  }

  /** Every level's name selects that level. */
  lemma LevelNameRoundTrip(l: LevelFilter)
    ensures LogLevelOf(LevelName(l)) == l
  {
    var n := LevelName(l);
    assert Lower(n) == n;
  }

  /** Case does not matter: a name and its lower-case form select the same level. */
  lemma LogLevelCaseInsensitive(level: string)
    ensures LogLevelOf(level) == LogLevelOf(Lower(level))
  {
    assert Lower(Lower(level)) == Lower(level);
  }

  /** A string that is no level's name, in any case, selects Info. */
  lemma UnknownLevelIsInfo(level: string)
    requires forall l: LevelFilter :: Lower(level) != LevelName(l)
    ensures LogLevelOf(level) == Info
  {
    assert Lower(level) != LevelName(Trace);
    assert Lower(level) != LevelName(Debug);
    assert Lower(level) != LevelName(Warn);
    assert Lower(level) != LevelName(Error);
    assert Lower(level) != LevelName(Off);
  }

  lemma LogLevelExamples()
    ensures LogLevelOf("DEBUG") == Debug && LogLevelOf("Warn") == Warn && LogLevelOf("verbose") == Info
  {
    assert Lower("DEBUG") == "debug";
    assert Lower("Warn") == "warn";
    assert Lower("verbose") == "verbose";
  }

  /** The (sensor, label) pairs `ResourcesConfig::default` inserts, in order. */
  function DefaultPairs(): seq<(string, string)>
  {
    [("k10temp", "CPU"), ("amdgpu", "GPU0"), ("NVIDIA RTX A2000", "GPU1"), ("r8169", "Eth0"), ("nvme composite", "NVMe0")]
  }

  /** `ResourcesConfig::default`'s sensor map, built by five inserts. */
  function DefaultSensors(): IndexMap<string, string>
  {
    InsertAll(EmptyMap(), DefaultPairs())
  }

  /** The five default names have five different lengths, so no two are equal. */
  lemma DefaultPairsDistinct()
    ensures IndexMap(DefaultPairs()).Valid()
    ensures IndexMap(DefaultPairs()).Keys() == ["k10temp", "amdgpu", "NVIDIA RTX A2000", "r8169", "nvme composite"]
  {
    var ps := DefaultPairs();
    assert |ps[0].0| == 7 && |ps[1].0| == 6 && |ps[2].0| == 16 && |ps[3].0| == 5 && |ps[4].0| == 14;
  }

  lemma DefaultSensorsKeys()
    ensures DefaultSensors().Keys() == ["k10temp", "amdgpu", "NVIDIA RTX A2000", "r8169", "nvme composite"]
    ensures forall i :: 0 <= i < 5 ==> DefaultSensors().Get(DefaultPairs()[i].0) == Some(DefaultPairs()[i].1)
  {
    DefaultPairsDistinct();
    InsertAllFresh(EmptyMap(), DefaultPairs());
    assert EmptyMap<string, string>().Keys() == [];
  }

  /** The default map lists the five sensors in insertion order with their labels. */
  lemma DefaultSensorsContents()
    ensures DefaultSensors().Keys() == ["k10temp", "amdgpu", "NVIDIA RTX A2000", "r8169", "nvme composite"]
    ensures DefaultSensors().Get("k10temp") == Some("CPU")
    ensures DefaultSensors().Get("NVIDIA RTX A2000") == Some("GPU1")
    ensures DefaultSensors().Get("nvme composite") == Some("NVMe0")
  {
    DefaultSensorsKeys();
    var ps := DefaultPairs();
    assert ps[0] == ("k10temp", "CPU");
    assert ps[2] == ("NVIDIA RTX A2000", "GPU1");
    assert ps[4] == ("nvme composite", "NVMe0");
  }

  /** `AppConfig::default` */
  function DefaultConfig(): (c: AppConfig)
    ensures c.lcd.backlight == 2 && c.lcd.width == 420 && c.lcd.height == 250
    ensures c.lcd.file == "current.png" && c.lcd.polling == 3
    ensures c.lcd.vid == 0x1908 && c.lcd.pid == 0x0102
    ensures c.dashboard.file == "dashboard.png" && !c.dashboard.enabled && !c.dashboard.saveToFile
    ensures c.logging.level == "info"
    ensures c.resources.disks == ["nvme0n1", "sda1"]
    ensures c.resources.networks == ["enp13s0", "enx0024278838ca"]
    ensures c.resources.mountPoints == ["/"]
    ensures c.resources.sensors == DefaultSensors()
  {
    AppConfig(
      LcdConfig(2, 420, 250, "current.png", 3, DEFAULT_VID, DEFAULT_PID),
      DashboardConfig("dashboard.png", false, false),
      ResourcesConfig(["nvme0n1", "sda1"], ["enp13s0", "enx0024278838ca"], ["/"], DefaultSensors()),
      LoggingConfig("info"))
  }

  /** The default log level is Info. */
  lemma DefaultLogLevel()
    ensures LogLevelOf(DefaultConfig().logging.level) == Info
  {
    LevelNameRoundTrip(Info);
  }

  /** One `key = "value"` line. */
  function Entry(key: string, value: string): string
  {
    key + " = \"" + value + "\"\n"
  }

  /** One line per list item, in list order, all under the same key. */
  function ListLines(key: string, items: seq<string>): string
  {
    if items == [] then "" else ListLines(key, items[..|items| - 1]) + Entry(key, items[|items| - 1])
  }

  /** One line per sensor, in the map's order. */
  function SensorLines(entries: seq<(string, string)>): string
  {
    if entries == [] then ""
    else SensorLines(entries[..|entries| - 1]) + Entry(entries[|entries| - 1].0, entries[|entries| - 1].1)
  }

  function LcdSection(c: LcdConfig): string
  {
    "[LCD]\n" + LcdLines(c)
  }

  function LcdLines(c: LcdConfig): string
  {
    "backlight = " + Decimal(c.backlight) + "\nwidth = " + Decimal(c.width)
    + "\nheight = " + Decimal(c.height) + "\nfile = " + c.file + "\npolling = " + Decimal(c.polling)
    + "\nvid = " + Hex06(c.vid) + "\npid = " + Hex06(c.pid) + "\n\n"
  }

  function DashboardSection(c: DashboardConfig): string
  {
    "[DASHBOARD]\n" + DashboardLines(c)
  }

  function DashboardLines(c: DashboardConfig): string
  {
    "file = " + c.file + "\nenabled = " + BoolText(c.enabled)
    + "\nsave_to_file = " + BoolText(c.saveToFile) + "\n\n"
  }

  function LoggingSection(c: LoggingConfig): string
  {
    "[LOGGING]\n" + ("level = " + c.level + "\n\n")
  }

  function SensorsSection(sensors: IndexMap<string, string>): string
  {
    if sensors.entries == [] then "" else "\n[RESOURCES.sensors]\n" + SensorLines(sensors.entries)
  }

  function ResourcesSection(c: ResourcesConfig): string
  {
    "[RESOURCES]\n" + ListLines("disks", c.disks) + ListLines("networks", c.networks)
    + ListLines("mount_points", c.mountPoints) + SensorsSection(c.sensors)
  }

  /** The text `save` writes: the LCD, DASHBOARD, LOGGING and RESOURCES
      sections in that order, each ending in a blank line or an entry line. */
  function SaveText(c: AppConfig): (t: string)
    ensures StartsWith(t, "[LCD]\n")
    ensures t[|t| - 1] == '\n'
  {
    var lcd, dash, log, res := LcdSection(c.lcd), DashboardSection(c.dashboard), LoggingSection(c.logging), ResourcesSection(c.resources);
    SectionsOpen(c);
    ResourcesEndsLine(c.resources);
    Layout(lcd, dash, log, res);
    lcd + dash + log + res
  }

  /** The text opens with the LCD section, and the DASHBOARD, LOGGING and
      RESOURCES headers follow, each at the end of the section before it. */
  lemma SectionsInOrder(c: AppConfig)
    ensures var t := SaveText(c);
      var d := |LcdSection(c.lcd)|;
      var l := d + |DashboardSection(c.dashboard)|;
      var r := l + |LoggingSection(c.logging)|;
      && 0 < d < l < r
      && OccursAt(t, "[DASHBOARD]\n", d)
      && OccursAt(t, "[LOGGING]\n", l)
      && OccursAt(t, "[RESOURCES]\n", r)
  {
    var lcd, dash, log, res := LcdSection(c.lcd), DashboardSection(c.dashboard), LoggingSection(c.logging), ResourcesSection(c.resources);
    SectionsOpen(c);
    HeadersInOrder(SaveText(c), lcd, dash, log, res, "[LCD]\n", "[DASHBOARD]\n", "[LOGGING]\n", "[RESOURCES]\n");
  }

  /** `s` is empty or ends with a line break. */
  predicate EmptyOrLine(s: string)
  {
    s == [] || s[|s| - 1] == '\n'
  }

  lemma LineAppend(a: string, b: string)
    requires EmptyOrLine(a) && EmptyOrLine(b)
    ensures EmptyOrLine(a + b)
  {
    if b != [] {
      assert (a + b)[|a + b| - 1] == b[|b| - 1];
    } else {
      assert a + b == a;
    }
  }

  lemma ListLinesEnd(key: string, items: seq<string>)
    ensures EmptyOrLine(ListLines(key, items))
  {
    if items != [] {
      var e := Entry(key, items[|items| - 1]);
      assert e[|e| - 1] == '\n';
      LineAppend(ListLines(key, items[..|items| - 1]), e);
    }
  }

  lemma SensorLinesEnd(entries: seq<(string, string)>)
    ensures EmptyOrLine(SensorLines(entries))
  {
    if entries != [] {
      var e := Entry(entries[|entries| - 1].0, entries[|entries| - 1].1);
      assert e[|e| - 1] == '\n';
      LineAppend(SensorLines(entries[..|entries| - 1]), e);
    }
  }

  /** The RESOURCES section is not empty and ends with a line break. */
  lemma ResourcesEndsLine(c: ResourcesConfig)
    ensures ResourcesSection(c) != [] && EmptyOrLine(ResourcesSection(c))
  {
    var h := "[RESOURCES]\n";
    var x1, x2, x3, x4 := ListLines("disks", c.disks), ListLines("networks", c.networks),
                          ListLines("mount_points", c.mountPoints), SensorsSection(c.sensors);
    ListLinesEnd("disks", c.disks);
    ListLinesEnd("networks", c.networks);
    ListLinesEnd("mount_points", c.mountPoints);
    if c.sensors.entries != [] {
      SensorLinesEnd(c.sensors.entries);
      LineAppend("\n[RESOURCES.sensors]\n", SensorLines(c.sensors.entries));
    }
    assert EmptyOrLine(h);
    LineAppend(h, x1);
    LineAppend(h + x1, x2);
    LineAppend(h + x1 + x2, x3);
    LineAppend(h + x1 + x2 + x3, x4);
  }

  /** Four sections one after the other start as the first and end as the last. */
  lemma Layout(lcd: string, dash: string, log: string, res: string)
    requires StartsWith(lcd, "[LCD]\n") && res != [] && EmptyOrLine(res)
    ensures StartsWith(lcd + dash + log + res, "[LCD]\n")
    ensures (lcd + dash + log + res)[|lcd + dash + log + res| - 1] == '\n'
  {
    var t := lcd + dash + log + res;
    assert t[..6] == lcd[..6];
    assert t[|t| - 1] == res[|res| - 1];
  }

  /** Each section opens with its header. */
  lemma SectionsOpen(c: AppConfig)
    ensures StartsWith(LcdSection(c.lcd), "[LCD]\n")
    ensures StartsWith(DashboardSection(c.dashboard), "[DASHBOARD]\n")
    ensures StartsWith(LoggingSection(c.logging), "[LOGGING]\n")
    ensures StartsWith(ResourcesSection(c.resources), "[RESOURCES]\n")
  {
    OpensWith("[LCD]\n", LcdLines(c.lcd));
    OpensWith("[DASHBOARD]\n", DashboardLines(c.dashboard));
    OpensWith("[LOGGING]\n", "level = " + c.logging.level + "\n\n");
    ResourcesOpens(c.resources);
  }

  lemma OpensWith(h: string, x: string)
    ensures StartsWith(h + x, h)
  {
    assert (h + x)[..|h|] == h;
  }

  lemma ResourcesOpens(c: ResourcesConfig)
    ensures StartsWith(ResourcesSection(c), "[RESOURCES]\n")
  {
    var h := "[RESOURCES]\n";
    var x1, x2, x3, x4 := ListLines("disks", c.disks), ListLines("networks", c.networks),
                          ListLines("mount_points", c.mountPoints), SensorsSection(c.sensors);
    assert (h + x1 + x2 + x3 + x4)[..|h|] == h;
  }

  /** Four sections opening with four headers, written one after the other,
      put each header where its section starts. */
  lemma HeadersInOrder(t: string, a: string, b: string, c: string, d: string, ha: string, hb: string, hc: string, hd: string)
    requires t == a + b + c + d
    requires StartsWith(a, ha) && StartsWith(b, hb) && StartsWith(c, hc) && StartsWith(d, hd)
    ensures StartsWith(t, ha)
    ensures OccursAt(t, hb, |a|)
    ensures OccursAt(t, hc, |a| + |b|)
    ensures OccursAt(t, hd, |a| + |b| + |c|)
  {
    assert t[..|ha|] == a[..|ha|];
    assert t[|a|..|a| + |hb|] == b[..|hb|];
    assert t[|a| + |b|..|a| + |b| + |hc|] == c[..|hc|];
    assert t[|a| + |b| + |c|..|a| + |b| + |c| + |hd|] == d[..|hd|];
  }

  function CountNewlines(s: string): nat
  {
    if s == [] then 0 else CountNewlines(s[..|s| - 1]) + (if s[|s| - 1] == '\n' then 1 else 0)
  }

  lemma {:induction false} CountNewlinesAppend(s: string, t: string)
    ensures CountNewlines(s + t) == CountNewlines(s) + CountNewlines(t)
    decreases |t|
  {
    if t == [] {
      assert s + t == s;
    } else {
      assert (s + t)[..|s + t| - 1] == s + t[..|t| - 1];
      CountNewlinesAppend(s, t[..|t| - 1]);
    }
  }

  predicate OneLine(s: string)
  {
    forall i :: 0 <= i < |s| ==> s[i] != '\n'
  }

  lemma {:induction false} NoNewlines(s: string)
    requires OneLine(s)
    ensures CountNewlines(s) == 0
    decreases |s|
  {
    if s != [] {
      NoNewlines(s[..|s| - 1]);
    }
  }

  /** A list is written as exactly one line per entry. */
  lemma {:induction false} OneLinePerItem(key: string, items: seq<string>)
    requires OneLine(key) && forall i :: 0 <= i < |items| ==> OneLine(items[i])
    ensures CountNewlines(ListLines(key, items)) == |items|
    decreases |items|
  {
    if items != [] {
      var last := items[|items| - 1];
      OneLinePerItem(key, items[..|items| - 1]);
      NoNewlines(key + " = \"" + last + "\"");
      CountNewlinesAppend(key + " = \"" + last + "\"", "\n");
      assert Entry(key, last) == (key + " = \"" + last + "\"") + "\n";
      CountNewlinesAppend(ListLines(key, items[..|items| - 1]), Entry(key, last));
    }
  }

  /** Writing two lists one after the other is writing their concatenation:
      the lines keep the list order. */
  lemma {:induction false} ListLinesAppend(key: string, xs: seq<string>, ys: seq<string>)
    ensures ListLines(key, xs + ys) == ListLines(key, xs) + ListLines(key, ys)
    decreases |ys|
  {
    if ys == [] {
      assert xs + ys == xs;
    } else {
      var init, last := ys[..|ys| - 1], ys[|ys| - 1];
      assert (xs + ys)[..|xs + ys| - 1] == xs + init;
      assert (xs + ys)[|xs + ys| - 1] == last;
      assert ListLines(key, xs + ys) == ListLines(key, xs + init) + Entry(key, last);
      ListLinesAppend(key, xs, init);
      Associative(ListLines(key, xs), ListLines(key, init), Entry(key, last));
    }
  }

  /** The sensors header is written exactly when there are sensors, and the
      resources section ends with it and the sensor lines. */
  lemma SensorsHeaderIffSensors(c: ResourcesConfig)
    ensures |c.sensors.entries| > 0 ==>
      exists pre :: ResourcesSection(c) == pre + "\n[RESOURCES.sensors]\n" + SensorLines(c.sensors.entries)
    ensures |c.sensors.entries| == 0 ==>
      ResourcesSection(c) == "[RESOURCES]\n" + ListLines("disks", c.disks) + ListLines("networks", c.networks)
                             + ListLines("mount_points", c.mountPoints)
  {
    var pre := "[RESOURCES]\n" + ListLines("disks", c.disks) + ListLines("networks", c.networks)
               + ListLines("mount_points", c.mountPoints);
    if |c.sensors.entries| > 0 {
      assert ResourcesSection(c) == pre + "\n[RESOURCES.sensors]\n" + SensorLines(c.sensors.entries);
    }
  }

  /** `AppConfig::save` up to the file write: builds the text section by
      section, pushing one line per list entry and per sensor. */
  method Save(c: AppConfig) returns (configStr: string)
    ensures configStr == SaveText(c)
  {
    configStr := "";
    configStr := configStr + LcdSection(c.lcd);
    assert configStr == LcdSection(c.lcd);
    configStr := configStr + DashboardSection(c.dashboard);
    configStr := configStr + LoggingSection(c.logging);
    configStr := PushResources(configStr, c.resources);
  }

  /** The RESOURCES part of `save`: the header, the three lists, and the
      sensors when there are any. */
  method PushResources(s: string, c: ResourcesConfig) returns (r: string)
    ensures r == s + ResourcesSection(c)
  {
    r := s + "[RESOURCES]\n";
    ghost var acc := "[RESOURCES]\n";
    r := PushList(r, "disks", c.disks);
    Associative(s, acc, ListLines("disks", c.disks));
    acc := acc + ListLines("disks", c.disks);
    r := PushList(r, "networks", c.networks);
    Associative(s, acc, ListLines("networks", c.networks));
    acc := acc + ListLines("networks", c.networks);
    r := PushList(r, "mount_points", c.mountPoints);
    Associative(s, acc, ListLines("mount_points", c.mountPoints));
    acc := acc + ListLines("mount_points", c.mountPoints);
    assert ResourcesSection(c) == acc + SensorsSection(c.sensors);
    if |c.sensors.entries| != 0 {
      r := r + "\n[RESOURCES.sensors]\n";
      r := PushSensors(r, c.sensors.entries);
      Associative(s + acc, "\n[RESOURCES.sensors]\n", SensorLines(c.sensors.entries));
      Associative(s, acc, SensorsSection(c.sensors));
    } else {
      assert acc + SensorsSection(c.sensors) == acc;
    }
  }

  lemma Associative(a: string, b: string, c: string)
    ensures a + b + c == a + (b + c)
  {
  }

  /** The `for item in list { push_str(...) }` loop of `save`. */
  method PushList(s: string, key: string, items: seq<string>) returns (r: string)
    ensures r == s + ListLines(key, items)
  {
    r := s;
    var i := 0;
    while i < |items|
      invariant 0 <= i <= |items|
      invariant r == s + ListLines(key, items[..i])
    {
      r := r + Entry(key, items[i]);
      assert items[..i + 1][..i] == items[..i];
      i := i + 1;
    }
    assert items[..i] == items;
  }

  /** The `for (key, value) in &sensors { push_str(...) }` loop of `save`. */
  method PushSensors(s: string, entries: seq<(string, string)>) returns (r: string)
    ensures r == s + SensorLines(entries)
  {
    r := s;
    var i := 0;
    while i < |entries|
      invariant 0 <= i <= |entries|
      invariant r == s + SensorLines(entries[..i])
    {
      r := r + Entry(entries[i].0, entries[i].1);
      assert entries[..i + 1][..i] == entries[..i];
      i := i + 1;
    }
    assert entries[..i] == entries;
  }
}
