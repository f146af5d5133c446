/** Reading temperature sensors out of one `/sys/class/hwmon/hwmonN` folder
    (`from_hwmon`): every regular file named `temp<N>_input` becomes one
    sensor, labelled from the folder's `name`, `device/model` and
    `temp<N>_label` files. The folder listing and the files' contents are
    inputs to the model. */
module Hwmon {
  import opened Wrappers
  import opened Bytes
  import opened Text
  import opened IntParse

  /** `models::sensor::Sensor`; the temperature is in degrees Celsius. */
  datatype Sensor = Sensor(id: u32, path: string, name: string, labelText: string, model: string, temperature: real)

  /** One entry of the folder after `dir.flatten()`: the result of
      `file_type()` (`Some(is_dir)`, `None` on error), the file name and the
      full path (`None` when they are not valid UTF-8). */
  datatype DirEntry = DirEntry(isDir: Option<bool>, fileName: Option<string>, path: Option<string>)

  /** A readable hwmon folder: its entries in iteration order, the text of the
      files that can be read (keyed by path relative to the folder) and the
      temperature each readable `temp*` file gives, already in Celsius. */
  datatype Folder = Folder(entries: seq<DirEntry>, files: map<string, string>, temperatures: map<string, real>)

  const U32_LIMIT: nat := 0x1_0000_0000

  /** `strip_prefix("temp")`, `split_once('_')` and `id.parse::<u32>()`. */
  function ParseFileName(fileName: string): (r: Option<(u32, string)>)
  {
    match StripPrefix(fileName, "temp")
    case None => None
    case Some(rest) =>
      match SplitOnce(rest, '_')
      case None => None
      case Some(parts) =>
        match FromStrRadix(parts.0, 10, U32_LIMIT)
        case Failure(_) => None
        case Success(id) => Some((id, parts.1))
  }

  function FileName(e: DirEntry): string
  {
    if e.fileName.Some? then e.fileName.value else ""
  }

  /** The sensor number of an entry that `from_hwmon` keeps: a non-directory
      whose name parses as `temp<id>_input`. A kept entry is a non-directory
      named "temp", an id text holding no '_' that reads as its id, "_input". */
  function TempInputId(e: DirEntry): (r: Option<u32>)
    ensures r.Some? ==> e.isDir == Some(false) && IsTempInput(FileName(e), r.value)
  {
    if e.isDir != Some(false) then None
    else match ParseFileName(FileName(e))
      case None => None
      case Some(parsed) =>
        if parsed.1 == "input" then
          var name := FileName(e);
          var rest := StripPrefix(name, "temp").value;
          var parts := SplitOnce(rest, '_').value;
          assert FromStrRadix(parts.0, 10, U32_LIMIT) == Success(parsed.0 as nat);
          NameOfParts(name, rest, parts.0, parts.1);
          Some(parsed.0)
        else None
  }

  /** The id text of a `temp<id>_input` name: what lies between the prefix and the suffix. */
  function IdText(name: string): string
    requires |name| >= 10
  {
    name[4..|name| - 6]
  }

  /** `name` is "temp", then an id text holding no '_' that parses as the
      u32 `id`, then "_input". */
  predicate IsTempInput(name: string, id: u32)
  {
    && |name| >= 10
    && name[..4] == "temp"
    && name[|name| - 6..] == "_input"
    && '_' !in IdText(name)
    && FromStrRadix(IdText(name), 10, U32_LIMIT) == Success(id)
  }

  /** "temp" + id text + "_input" read back through `IdText`. */
  lemma NameOfParts(name: string, rest: string, idText: string, item: string)
    requires name == "temp" + rest && rest == idText + ['_'] + item && item == "input"
    requires '_' !in idText && idText != []
    ensures |name| >= 10 && name[..4] == "temp" && name[|name| - 6..] == "_input"
    ensures IdText(name) == idText
  {
    assert name == "temp" + idText + "_input";
  }

  lemma TempInputIdComplete(e: DirEntry, id: u32)
    requires e.isDir == Some(false) && IsTempInput(FileName(e), id)
    ensures TempInputId(e) == Some(id)
  {
    var name := FileName(e);
    var t := IdText(name);
    assert name == "temp" + (t + ['_'] + "input");
    assert StripPrefix(name, "temp") == Some(t + ['_'] + "input");
    SplitOnceUnique(t, '_', "input");
  }

  /** An entry is kept exactly when it is a regular file named
      `temp<id>_input`, and then its id is the parsed number. */
  lemma TempInputIdIff(e: DirEntry, id: u32)
    ensures TempInputId(e) == Some(id) <==> e.isDir == Some(false) && IsTempInput(FileName(e), id)
  {
    if e.isDir == Some(false) && IsTempInput(FileName(e), id) {
      TempInputIdComplete(e, id);
    }
  }

  /** Entries named like `tempN_input` for every u32 N are kept with id N. */
  lemma TempInputRoundTrip(n: u32)
    ensures IsTempInput("temp" + Decimal(n) + "_input", n)
    ensures TempInputId(DirEntry(Some(false), Some("temp" + Decimal(n) + "_input"), None)) == Some(n)
  {
    var name := "temp" + Decimal(n) + "_input";
    assert IdText(name) == Decimal(n);
    assert name[..4] == "temp" && name[|name| - 6..] == "_input";
    DecimalRoundTrip(n, U32_LIMIT);
    TempInputIdComplete(DirEntry(Some(false), Some(name), None), n);
  }

  /** The other files of a sensor (`tempN_label`, `tempN_max`, `tempN_crit`, ...)
      are skipped, and so is a name with no id before the '_'. */
  lemma OtherItemsSkipped(e: DirEntry, idText: string, item: string)
    requires FileName(e) == "temp" + idText + "_" + item && '_' !in idText
    requires item != "input" || idText == []
    ensures TempInputId(e).None?
  {
    var name := FileName(e);
    assert name == "temp" + (idText + ['_'] + item);
    assert StripPrefix(name, "temp") == Some(idText + ['_'] + item);
    SplitOnceUnique(idText, '_', item);
  }

  /** `filename.replace("_input", "_label")` */
  function LabelFileName(fileName: string): string
  {
    Replace(fileName, "_input", "_label")
  }

  /** For a kept entry the label file is the same name ending in `_label`. */
  lemma LabelOfTempInput(name: string, id: u32)
    requires IsTempInput(name, id)
    ensures LabelFileName(name) == name[..|name| - 6] + "_label"
  {
    var stem := name[..|name| - 6];
    assert stem == "temp" + IdText(name);
    assert '_' !in stem;
    assert name == stem + "_input";
    ReplaceSkips(stem, "_input", "_input", "_label");
    assert Replace("_input", "_input", "_label") == "_label" + Replace([], "_input", "_label");
  }

  /** `get_file_line`: the file's text without trailing whitespace, or `None`
      when it cannot be read. */
  function GetFileLine(content: Option<string>): (r: Option<string>)
    ensures r.None? <==> content.None?
    ensures r.Some? ==> r.value <= content.value && (r.value == [] || !IsWhitespace(r.value[|r.value| - 1]))
    ensures r.Some? ==> forall i :: |r.value| <= i < |content.value| ==> IsWhitespace(content.value[i])
  {
    match content
    case None => None
    case Some(text) => Some(TrimEnd(text))
  }

  /** Reading a line back through `get_file_line` changes nothing. */
  lemma GetFileLineIdempotent(content: Option<string>)
    ensures GetFileLine(GetFileLine(content)) == GetFileLine(content)
  {
    if content.Some? {
      TrimEndIdempotent(content.value);
    }
  }

  /** `get_file_line(..).unwrap_or("")` on a file of the folder. */
  function FileLine(folder: Folder, relative: string): (r: string)
    ensures relative !in folder.files ==> r == ""
    ensures relative in folder.files ==>
      var text := folder.files[relative];
      && r <= text && (r == [] || !IsWhitespace(r[|r| - 1]))
      && forall i :: |r| <= i < |text| ==> IsWhitespace(text[i])
  {
    var line := GetFileLine(if relative in folder.files then Some(folder.files[relative]) else None);
    if line.Some? then line.value else ""
  }

  /** The sensor `from_hwmon` builds for a kept entry. */
  function SensorOf(folder: Folder, e: DirEntry, id: u32): Sensor
  {
    var fileName := FileName(e);
    Sensor(
      id,
      if e.path.Some? then e.path.value else "",
      FileLine(folder, "name"),
      FileLine(folder, LabelFileName(fileName)),
      FileLine(folder, "device/model"),
      if fileName in folder.temperatures then folder.temperatures[fileName] else 0.0)
  }

  /** The sensors a listing yields, one per kept entry, in listing order. */
  function Accepted(folder: Folder, entries: seq<DirEntry>): seq<Sensor>
  {
    if entries == [] then []
    else
      var init, last := entries[..|entries| - 1], entries[|entries| - 1];
      Accepted(folder, init) + Kept(folder, last)
  }

  /** What one entry contributes: its sensor when it is kept, else nothing. */
  function Kept(folder: Folder, e: DirEntry): seq<Sensor>
  {
    match TempInputId(e)
    case None => []
    case Some(id) => [SensorOf(folder, e, id)]
  }

  /** Listing more entries only appends sensors: the sensors of a listing are
      those of its first part followed by those of the rest. */
  lemma {:induction false} AcceptedAppend(folder: Folder, xs: seq<DirEntry>, ys: seq<DirEntry>)
    ensures Accepted(folder, xs + ys) == Accepted(folder, xs) + Accepted(folder, ys)
    decreases |ys|
  {
    if ys == [] {
      assert xs + ys == xs;
    } else {
      var init, last := ys[..|ys| - 1], ys[|ys| - 1];
      assert (xs + ys)[..|xs + ys| - 1] == xs + init;
      assert (xs + ys)[|xs + ys| - 1] == last;
      AcceptedAppend(folder, xs, init);
      assert Accepted(folder, xs + ys) == Accepted(folder, xs + init) + Kept(folder, last);
      assert Accepted(folder, ys) == Accepted(folder, init) + Kept(folder, last);
    }
  }

  /** Each sensor carries the id, path and labels of one kept entry, and a
      listing yields no more sensors than it has entries. */
  lemma {:induction false} AcceptedFromEntries(folder: Folder, entries: seq<DirEntry>, k: nat)
    requires k < |Accepted(folder, entries)|
    ensures exists i :: (0 <= i < |entries| && TempInputId(entries[i]).Some? &&
      Accepted(folder, entries)[k] == SensorOf(folder, entries[i], TempInputId(entries[i]).value))
  {
    assert entries != [];
    var init, last := entries[..|entries| - 1], entries[|entries| - 1];
    var before := Accepted(folder, init);
    assert Accepted(folder, entries) == before + Kept(folder, last);
    if k < |before| {
      AcceptedFromEntries(folder, init, k);
      var i :| 0 <= i < |init| && TempInputId(init[i]).Some? &&
        before[k] == SensorOf(folder, init[i], TempInputId(init[i]).value);
      assert entries[i] == init[i];
      assert Accepted(folder, entries)[k] == before[k];
    } else {
      var j := |entries| - 1;
      assert TempInputId(last).Some?;
      assert Accepted(folder, entries)[k] == SensorOf(folder, entries[j], TempInputId(entries[j]).value);
    }
  }

  lemma AcceptedStep(folder: Folder, entries: seq<DirEntry>, i: nat)
    requires i < |entries|
    ensures Accepted(folder, entries[..i + 1]) == Accepted(folder, entries[..i]) + Kept(folder, entries[i])
  {
    assert entries[..i + 1][..i] == entries[..i];
  }

  lemma AppendKept(start: seq<Sensor>, done: seq<Sensor>, kept: seq<Sensor>, sensor: Option<Sensor>)
    requires kept == if sensor.Some? then [sensor.value] else []
    ensures start + (done + kept) == if sensor.Some? then start + done + [sensor.value] else start + done
  {
    if sensor.None? {
      assert done + kept == done;
    }
  }

  /** The caller's sensor vector, which `from_hwmon` extends in place. */
  class SensorList {
    var items: seq<Sensor>

    constructor()
      ensures items == []
    {
      items := [];
    }

    /** `sensors.push(sensor)` */
    method Push(s: Sensor)
      modifies this
      ensures items == old(items) + [s]
    {
      items := items + [s];
    }
  }

  /** The body of `from_hwmon`'s loop for one entry: skip it, or build its sensor. */
  method SensorFor(dir: Folder, entry: DirEntry) returns (sensor: Option<Sensor>)
    ensures (if sensor.Some? then [sensor.value] else []) == Kept(dir, entry)
  {
    if entry.isDir != Some(false) {
      return None;
    }
    var fileName := FileName(entry);
    var parsed := ParseFileName(fileName);
    if parsed.None? {
      return None;
    }
    var (id, item) := parsed.value;
    if item != "input" {
      return None;
    }
    var name := FileLine(dir, "name");
    var model := FileLine(dir, "device/model");
    var labelText := FileLine(dir, LabelFileName(fileName));
    var temperature := if fileName in dir.temperatures then dir.temperatures[fileName] else 0.0;
    var path := if entry.path.Some? then entry.path.value else "";
    return Some(Sensor(id, path, name, labelText, model, temperature));
  }

  /** `from_hwmon`: an unreadable folder (`None`) gives `None` and leaves the
      vector alone; otherwise one sensor is appended per kept entry, in
      listing order, after the sensors already there. */
  method FromHwmon(sensors: SensorList, folder: Option<Folder>) returns (r: Option<()>)
    modifies sensors
    ensures folder.None? ==> r.None? && sensors.items == old(sensors.items)
    ensures folder.Some? ==> r == Some(()) && sensors.items == old(sensors.items) + Accepted(folder.value, folder.value.entries)
  {
    if folder.None? {
      return None;
    }
    var dir := folder.value;
    ghost var start := sensors.items;
    var i := 0;
    while i < |dir.entries|
      invariant 0 <= i <= |dir.entries|
      invariant sensors.items == start + Accepted(dir, dir.entries[..i])
    {
      var entry := dir.entries[i];
      ghost var done := Accepted(dir, dir.entries[..i]);
      ghost var kept := Kept(dir, entry);
      AcceptedStep(dir, dir.entries, i);
      var sensor := SensorFor(dir, entry);
      if sensor.Some? {
        sensors.Push(sensor.value);
      }
      AppendKept(start, done, kept, sensor);
      i := i + 1;
    }
    assert dir.entries[..i] == dir.entries;
    return Some(());
  }
}
