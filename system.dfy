/** The system collector's text shaping: the uptime breakdown
    (`collect_uptime`), the newest-first syslog excerpt
    (`collect_recent_syslog_lines`), matching hwmon sensors against the
    configured hints (`collect_sensors`) and choosing the `ps` sort key and
    data lines (`collect_processes_cmd`). What the system reports (uptime,
    the syslog tail, the sensors, the `ps` output) is an input. */
module SystemCollector {
  import opened Wrappers
  import opened Bytes
  import opened Text
  import opened IndexMaps
  import opened Hwmon

  // ---------------------------------------------------------------- uptime

  const SECONDS_PER_DAY: nat := 24 * 3600

  datatype UptimeParts = UptimeParts(days: nat, hours: nat, minutes: nat, seconds: nat)

  /** The breakdown `collect_uptime` computes with `/` and `%`. */
  function Decompose(duration: nat): (p: UptimeParts)
    ensures p.hours < 24 && p.minutes < 60 && p.seconds < 60
  {
    UptimeParts(duration / SECONDS_PER_DAY, (duration % SECONDS_PER_DAY) / 3600, (duration % 3600) / 60, duration % 60)
  }

  function TotalSeconds(p: UptimeParts): nat
  {
    p.days * SECONDS_PER_DAY + p.hours * 3600 + p.minutes * 60 + p.seconds
  }

  /** Division with remainder has one answer. */
  lemma DivModUnique(x: int, q: int, r: int, m: int)
    requires m > 0 && 0 <= r < m && x == q * m + r
    ensures x / m == q && x % m == r
  {
    assert (x / m) * m + x % m == q * m + r;
    assert (x / m - q) * m == r - x % m;
    MulMono(x / m - q, m);
  }

  /** The parts add back up to the uptime. */
  lemma DecomposeReassembles(duration: nat)
    ensures TotalSeconds(Decompose(duration)) == duration
  {
    var p := Decompose(duration);
    var dayRest := duration % SECONDS_PER_DAY;
    var hourRest := dayRest % 3600;
    assert duration == p.days * SECONDS_PER_DAY + dayRest;
    assert dayRest == p.hours * 3600 + hourRest;
    assert duration == (p.days * 24 + p.hours) * 3600 + hourRest;
    DivModUnique(duration, p.days * 24 + p.hours, hourRest, 3600);
    assert hourRest == p.minutes * 60 + p.seconds;
    assert duration == (p.days * 1440 + p.hours * 60 + p.minutes) * 60 + p.seconds;
    DivModUnique(duration, p.days * 1440 + p.hours * 60 + p.minutes, hourRest % 60, 60);
  }

  /** Any breakdown with hours below 24 and minutes and seconds below 60 is
      the one `collect_uptime` computes for its total. */
  lemma DecomposeUnique(p: UptimeParts)
    requires p.hours < 24 && p.minutes < 60 && p.seconds < 60
    ensures Decompose(TotalSeconds(p)) == p
  {
    var d := TotalSeconds(p);
    var inHour := p.minutes * 60 + p.seconds;
    var inDay := p.hours * 3600 + inHour;
    DivModUnique(d, p.days, inDay, SECONDS_PER_DAY);
    DivModUnique(inDay, p.hours, inHour, 3600);
    assert d == (p.days * 24 + p.hours) * 3600 + inHour;
    DivModUnique(d, p.days * 24 + p.hours, inHour, 3600);
    DivModUnique(inHour, p.minutes, p.seconds, 60);
    assert d == (p.days * 1440 + p.hours * 60 + p.minutes) * 60 + p.seconds;
    DivModUnique(d, p.days * 1440 + p.hours * 60 + p.minutes, p.seconds, 60);
  }

  /** The non-zero parts with their suffixes, days first. */
  function UptimeEntries(p: UptimeParts): (r: seq<(nat, char)>)
    ensures |r| <= 4
    ensures r == [] <==> p.days == 0 && p.hours == 0 && p.minutes == 0 && p.seconds == 0
  {
    Part(p.days, 'd') + Part(p.hours, 'h') + Part(p.minutes, 'm') + Part(p.seconds, 's')
  }

  function UnitSeconds(suffix: char): nat
  {
    match suffix
    case 'd' => SECONDS_PER_DAY
    case 'h' => 3600
    case 'm' => 60
    case _ => 1
  }

  /** What the displayed parts stand for, in seconds. */
  function Weighted(entries: seq<(nat, char)>): nat
  {
    if entries == [] then 0 else entries[0].0 * UnitSeconds(entries[0].1) + Weighted(entries[1..])
  }

  lemma {:induction false} WeightedAppend(xs: seq<(nat, char)>, ys: seq<(nat, char)>)
    ensures Weighted(xs + ys) == Weighted(xs) + Weighted(ys)
  {
    if xs != [] {
      assert (xs + ys)[1..] == xs[1..] + ys;
      WeightedAppend(xs[1..], ys);
    } else {
      assert xs + ys == ys;
    }
  }

  lemma WeightedSingle(v: nat, c: char)
    ensures Weighted([(v, c)]) == v * UnitSeconds(c)
  {
    assert [(v, c)][1..] == [];
  }

  /** The displayed parts of any breakdown stand for its total. */
  lemma UptimeEntriesWeight(p: UptimeParts)
    ensures Weighted(UptimeEntries(p)) == TotalSeconds(p)
  {
    var d, h, m, s := Part(p.days, 'd'), Part(p.hours, 'h'), Part(p.minutes, 'm'), Part(p.seconds, 's');
    WeightedAppend(d, h);
    WeightedAppend(d + h, m);
    WeightedAppend(d + h + m, s);
    PartWeight(p.days, 'd');
    PartWeight(p.hours, 'h');
    PartWeight(p.minutes, 'm');
    PartWeight(p.seconds, 's');
  }

  /** A part that is shown when non-zero stands for its value in seconds. */
  lemma PartWeight(v: nat, c: char)
    ensures Weighted(Part(v, c)) == v * UnitSeconds(c)
  {
    if v > 0 {
      WeightedSingle(v, c);
    }
  }

  /** Reading the displayed parts back gives the uptime: dropping the zero
      parts loses nothing. */
  lemma UptimeEntriesReassemble(duration: nat)
    ensures Weighted(UptimeEntries(Decompose(duration))) == duration
  {
    UptimeEntriesWeight(Decompose(duration));
    DecomposeReassembles(duration);
  }

  /** Only non-zero parts are shown, at most one per unit, in the order
      d, h, m, s; nothing is shown only when every part is zero. */
  lemma UptimeEntriesOrdered(p: UptimeParts)
    ensures forall i :: 0 <= i < |UptimeEntries(p)| ==> UptimeEntries(p)[i].0 > 0
    ensures forall i, j :: 0 <= i < j < |UptimeEntries(p)| ==>
      UnitSeconds(UptimeEntries(p)[i].1) > UnitSeconds(UptimeEntries(p)[j].1)
    ensures UptimeEntries(p) == [] <==> TotalSeconds(p) == 0
  {
    PartsOrdered(p.days, p.hours, p.minutes, p.seconds);
    assert TotalSeconds(p) == 0 <==> p.days == 0 && p.hours == 0 && p.minutes == 0 && p.seconds == 0;
  }

  lemma PartsOrdered(days: nat, hours: nat, minutes: nat, seconds: nat)
    ensures var es := Part(days, 'd') + Part(hours, 'h') + Part(minutes, 'm') + Part(seconds, 's');
      && OrderedAbove(es, 0)
      && (es == [] <==> days == 0 && hours == 0 && minutes == 0 && seconds == 0)
  {
    var d := Part(days, 'd');
    var h := Part(hours, 'h');
    var m := Part(minutes, 'm');
    var s := Part(seconds, 's');
    assert |d + h + m + s| == |d| + |h| + |m| + |s|;
    assert [] + d == d;
    SnocPart([], days, 'd', SECONDS_PER_DAY, 3600);
    SnocPart(d, hours, 'h', 3600, 60);
    SnocPart(d + h, minutes, 'm', 60, 1);
    SnocPart(d + h + m, seconds, 's', 1, 0);
  }

  /** A part as `collect_uptime` shows it: only when it is non-zero. */
  function Part(v: nat, c: char): seq<(nat, char)>
  {
    if v > 0 then [(v, c)] else []
  }

  /** Every entry is non-zero, units strictly decrease, and all are above `below`. */
  predicate OrderedAbove(es: seq<(nat, char)>, below: nat)
  {
    && (forall i :: 0 <= i < |es| ==> es[i].0 > 0 && UnitSeconds(es[i].1) > below)
    && (forall i, j :: 0 <= i < j < |es| ==> UnitSeconds(es[i].1) > UnitSeconds(es[j].1))
  }

  lemma SnocPart(xs: seq<(nat, char)>, v: nat, c: char, unit: nat, below: nat)
    requires UnitSeconds(c) == unit && OrderedAbove(xs, unit) && below < unit
    ensures OrderedAbove(xs + Part(v, c), below)
  {
    if v > 0 {
      var ys := xs + [(v, c)];
      assert forall i :: 0 <= i < |xs| ==> ys[i] == xs[i];
      assert ys[|xs|] == (v, c);
    } else {
      assert xs + Part(v, c) == xs;
    }
  }

  /** The same for the breakdown of an uptime: an uptime of 0 shows nothing. */
  lemma UptimeEntriesShape(duration: nat)
    ensures forall i :: 0 <= i < |UptimeEntries(Decompose(duration))| ==> UptimeEntries(Decompose(duration))[i].0 > 0
    ensures forall i, j :: 0 <= i < j < |UptimeEntries(Decompose(duration))| ==>
      UnitSeconds(UptimeEntries(Decompose(duration))[i].1) > UnitSeconds(UptimeEntries(Decompose(duration))[j].1)
    ensures UptimeEntries(Decompose(duration)) == [] <==> duration == 0
  {
    UptimeEntriesOrdered(Decompose(duration));
    DecomposeReassembles(duration);
  }

  /** The values pushed so far, their texts, and the parts they display. */
  ghost predicate Shown(parts: seq<u64>, texts: seq<string>, entries: seq<(nat, char)>)
  {
    && |parts| == |texts| == |entries|
    && forall i :: 0 <= i < |parts| ==> parts[i] == entries[i].0 && texts[i] == Decimal(parts[i]) + [entries[i].1]
  }

  lemma ShownPush(parts: seq<u64>, texts: seq<string>, entries: seq<(nat, char)>, v: u64, c: char)
    requires Shown(parts, texts, entries)
    ensures Shown(parts + (if v > 0 then [v] else []), texts + (if v > 0 then [Decimal(v) + [c]] else []),
      entries + Part(v as nat, c))
  {
    if v == 0 {
      assert parts + [] == parts && texts + [] == texts && entries + [] == entries;
    }
  }

  lemma DecomposeFields(duration: nat)
    ensures duration / (24 * 3600) <= duration
    ensures Decompose(duration) == UptimeParts(duration / (24 * 3600), (duration % (24 * 3600)) / 3600, (duration % 3600) / 60, duration % 60)
  {
  }

  /** `collect_uptime`: the uptime in seconds (0 when it cannot be read), the
      non-zero parts, and each part as text with its suffix. */
  method CollectUptime(uptime: Option<u64>) returns (duration: u64, parts: seq<u64>, texts: seq<string>)
    ensures duration == (if uptime.Some? then uptime.value else 0)
    ensures |parts| == |texts| == |UptimeEntries(Decompose(duration))|
    ensures forall i :: 0 <= i < |parts| ==>
      && parts[i] == UptimeEntries(Decompose(duration))[i].0
      && texts[i] == Decimal(parts[i]) + [UptimeEntries(Decompose(duration))[i].1]
  {
    duration := if uptime.Some? then uptime.value else 0;
    ghost var p := Decompose(duration);
    DecomposeFields(duration);
    var days: u64 := duration / (24 * 3600);
    var hours: u64 := (duration % (24 * 3600)) / 3600;
    var minutes: u64 := (duration % 3600) / 60;
    var seconds: u64 := duration % 60;
    assert days == p.days && hours == p.hours && minutes == p.minutes && seconds == p.seconds;
    parts, texts := [], [];
    ghost var entries: seq<(nat, char)> := [];
    ShownPush(parts, texts, entries, days, 'd');
    if days > 0 {
      parts, texts := parts + [days], texts + [Decimal(days) + "d"];
    }
    entries := entries + Part(days as nat, 'd');
    ShownPush(parts, texts, entries, hours, 'h');
    if hours > 0 {
      parts, texts := parts + [hours], texts + [Decimal(hours) + "h"];
    }
    entries := entries + Part(hours as nat, 'h');
    ShownPush(parts, texts, entries, minutes, 'm');
    if minutes > 0 {
      parts, texts := parts + [minutes], texts + [Decimal(minutes) + "m"];
    }
    entries := entries + Part(minutes as nat, 'm');
    ShownPush(parts, texts, entries, seconds, 's');
    if seconds > 0 {
      parts, texts := parts + [seconds], texts + [Decimal(seconds) + "s"];
    }
    entries := entries + Part(seconds as nat, 's');
    assert [] + Part(p.days, 'd') == Part(p.days, 'd');
    assert entries == UptimeEntries(p);
  }

  // ---------------------------------------------------------------- syslog

  /** `str::splitn(n, sep)`: at most `n` pieces, the last holding the rest. */
  function SplitN(s: string, n: nat, sep: char): (parts: seq<string>)
    ensures |parts| <= n
    ensures n >= 1 ==> |parts| >= 1
  {
    if n == 0 then []
    else if n == 1 then [s]
    else match IndexOfChar(s, sep)
      case None => [s]
      case Some(i) => [s[..i]] + SplitN(s[i + 1..], n - 1, sep)
  }

  /** The pieces joined back with the separator. */
  function Join(parts: seq<string>, sep: char): string
  {
    if parts == [] then []
    else if |parts| == 1 then parts[0]
    else parts[0] + [sep] + Join(parts[1..], sep)
  }

  /** Splitting loses nothing: joining the pieces gives the line back. */
  lemma {:induction false} SplitNJoin(s: string, n: nat, sep: char)
    requires n >= 1
    ensures Join(SplitN(s, n, sep), sep) == s
  {
    if n > 1 && IndexOfChar(s, sep).Some? {
      var i := IndexOfChar(s, sep).value;
      var rest := SplitN(s[i + 1..], n - 1, sep);
      SplitNJoin(s[i + 1..], n - 1, sep);
      assert SplitN(s, n, sep) == [s[..i]] + rest;
      JoinCons(s[..i], rest, sep);
      SplitAround(s, i);
    }
  }

  lemma SplitAround(s: string, i: nat)
    requires i < |s|
    ensures s == s[..i] + [s[i]] + s[i + 1..]
  {
  }

  lemma JoinCons(first: string, rest: seq<string>, sep: char)
    requires rest != []
    ensures Join([first] + rest, sep) == first + [sep] + Join(rest, sep)
  {
    assert ([first] + rest)[1..] == rest;
  }

  /** Every piece but the last is free of the separator. */
  lemma {:induction false} SplitNPieces(s: string, n: nat, sep: char)
    ensures forall k :: 0 <= k < |SplitN(s, n, sep)| - 1 ==> sep !in SplitN(s, n, sep)[k]
  {
    if n > 1 {
      match IndexOfChar(s, sep)
      case None =>
      case Some(i) =>
        var rest := SplitN(s[i + 1..], n - 1, sep);
        SplitNPieces(s[i + 1..], n - 1, sep);
        var parts := [s[..i]] + rest;
        assert sep !in s[..i];
        forall k | 0 <= k < |parts| - 1
          ensures sep !in parts[k]
        {
          if k > 0 {
            assert parts[k] == rest[k - 1];
          }
        }
    }
  }

  /** Splitting "a b rest" on spaces into at most three pieces gives `a`,
      `b` and the untouched rest. */
  lemma SplitNTwoSeparators(a: string, b: string, rest: string, sep: char)
    requires sep !in a && sep !in b
    ensures SplitN(a + [sep] + b + [sep] + rest, 3, sep) == [a, b, rest]
  {
    var tail := b + [sep] + rest;
    assert a + [sep] + b + [sep] + rest == a + [sep] + tail;
    SplitNStep(a, sep, tail, 3);
    SplitNStep(b, sep, rest, 2);
  }

  /** A piece free of the separator, then the separator, splits off first. */
  lemma SplitNStep(x: string, sep: char, y: string, n: nat)
    requires sep !in x && n >= 2
    ensures SplitN(x + [sep] + y, n, sep) == [x] + SplitN(y, n - 1, sep)
  {
    var line := x + [sep] + y;
    IndexOfCharUnique(x, sep, y);
    assert line[..|x|] == x && line[|x| + 1..] == y;
  }

  /** The message of a syslog line: what follows the second space, trimmed,
      when the line has two spaces; otherwise the whole line. */
  function Message(line: string): (r: string)
    ensures Contains(line, r)
    ensures r == line || r == [] || (!IsWhitespace(r[0]) && !IsWhitespace(r[|r| - 1]))
  {
    var parts := SplitN(line, 3, ' ');
    if |parts| >= 3 then
      ThirdPieceOccurs(line);
      ContainsTrans(line, parts[2], Trim(parts[2]));
      Trim(parts[2])
    else
      assert OccursAt(line, line, 0);
      line
  }

  lemma LastPieceOccurs(a: string, b: string, c: string)
    ensures Contains(a + [' '] + (b + [' '] + c), c)
  {
    var line := a + [' '] + (b + [' '] + c);
    var at := |a| + 1 + |b| + 1;
    assert line[at..at + |c|] == c;
    assert OccursAt(line, c, at);
  }

  /** The third piece of `splitn(3, ' ')` is a piece of the line. */
  lemma ThirdPieceOccurs(line: string)
    ensures |SplitN(line, 3, ' ')| >= 3 ==> Contains(line, SplitN(line, 3, ' ')[2])
  {
    var parts := SplitN(line, 3, ' ');
    if |parts| >= 3 {
      SplitNJoin(line, 3, ' ');
      assert |parts| == 3;
      assert parts[1..][1..] == [parts[2]];
      assert Join(parts[1..][1..], ' ') == parts[2];
      assert Join(parts[1..], ' ') == parts[1] + [' '] + parts[2];
      LastPieceOccurs(parts[0], parts[1], parts[2]);
    }
  }

  /** For "date host rest", the message is the trimmed rest. */
  lemma MessageAfterSecondSpace(a: string, b: string, rest: string)
    requires ' ' !in a && ' ' !in b
    ensures Message(a + " " + b + " " + rest) == Trim(rest)
  {
    SplitNTwoSeparators(a, b, rest, ' ');
  }

  lemma IndexOfCharUnique(a: string, c: char, b: string)
    requires c !in a
    ensures IndexOfChar(a + [c] + b, c) == Some(|a|)
  {
    var s := a + [c] + b;
    assert s[..|a|] == a && s[|a|] == c;
  }

  /** A line with fewer than two spaces is its own message. */
  lemma MessageOfShortLine(line: string)
    requires forall i, j :: 0 <= i < j < |line| ==> !(line[i] == ' ' && line[j] == ' ')
    ensures Message(line) == line
  {
    match IndexOfChar(line, ' ')
    case None =>
    case Some(i) =>
      var tail := line[i + 1..];
      assert ' ' !in tail by {
        forall j | 0 <= j < |tail|
          ensures tail[j] != ' '
        {
          assert line[i + 1 + j] == tail[j];
        }
      }
      assert SplitN(tail, 2, ' ') == [tail];
      assert SplitN(line, 3, ' ') == [line[..i], tail];
  }

  /** Byte offset `n` falls between two characters of `s` (`str::is_char_boundary`). */
  predicate IsCharBoundary(s: string, n: nat)
  {
    exists k :: 0 <= k <= |s| && ByteLen(s[..k]) == n
  }

  /** The number of leading characters that fit in `n` bytes. */
  function CharsWithin(s: string, n: nat): (k: nat)
    ensures k <= |s|
  {
    if s == [] || Utf8Width(s[0]) > n then 0 else 1 + CharsWithin(s[1..], n - Utf8Width(s[0]))
  }

  lemma ByteLenCons(c: char, t: string)
    ensures ByteLen([c] + t) == Utf8Width(c) + ByteLen(t)
  {
    ByteLenAppend([c], t);
    assert [c][..0] == [];
  }

  /** `CharsWithin` is the longest prefix whose UTF-8 form fits in `n` bytes. */
  lemma {:induction false} CharsWithinFits(s: string, n: nat)
    ensures ByteLen(s[..CharsWithin(s, n)]) <= n
    ensures CharsWithin(s, n) < |s| ==> ByteLen(s[..CharsWithin(s, n) + 1]) > n
  {
    if s == [] {
    } else if Utf8Width(s[0]) > n {
      assert CharsWithin(s, n) == 0 && s[..0] == [];
      assert s[..1] == [s[0]] + [];
      ByteLenCons(s[0], []);
    } else {
      var w := Utf8Width(s[0]);
      var k := CharsWithin(s[1..], n - w);
      assert CharsWithin(s, n) == k + 1;
      CharsWithinFits(s[1..], n - w);
      assert s[..k + 1] == [s[0]] + s[1..][..k];
      ByteLenCons(s[0], s[1..][..k]);
      if k < |s[1..]| {
        assert s[..k + 2] == [s[0]] + s[1..][..k + 1];
        ByteLenCons(s[0], s[1..][..k + 1]);
      }
    }
  }

  /** Longer prefixes take strictly more bytes. */
  lemma ByteLenPrefixStrict(s: string, i: nat, j: nat)
    requires i < j <= |s|
    ensures ByteLen(s[..i]) < ByteLen(s[..j])
  {
    ByteLenPrefixMono(s, i, j - 1);
    assert s[..j][..j - 1] == s[..j - 1];
  }

  /** On a boundary, the prefix of `n` bytes is exactly `CharsWithin` characters long. */
  lemma BoundaryPrefix(s: string, n: nat)
    requires IsCharBoundary(s, n)
    ensures ByteLen(s[..CharsWithin(s, n)]) == n
  {
    var k :| 0 <= k <= |s| && ByteLen(s[..k]) == n;
    var c := CharsWithin(s, n);
    CharsWithinFits(s, n);
    if c < k {
      ByteLenPrefixMono(s, c + 1, k);
    } else if c > k {
      ByteLenPrefixStrict(s, k, c);
    }
  }

  /** The truncation as written: `&message[..n]` slices at byte `n`, which
      panics (`None`) when byte `n` falls inside a multi-byte character. */
  function TruncateAsWritten(message: string, n: nat): (r: Option<string>)
    ensures r.None? <==> ByteLen(message) > n && !IsCharBoundary(message, n)
  {
    if ByteLen(message) > n then
      if IsCharBoundary(message, n) then Some(message[..CharsWithin(message, n)] + "...") else None
    else Some(message)
  }

  /** "aé" is three bytes; cutting it to two splits the 'é' and panics. */
  lemma TruncatePanicsInsideCharacter()
    ensures TruncateAsWritten("aé", 2) == None
  {
    var s := "aé";
    assert ByteLen(s[..0]) == 0;
    assert s[..1] == "a" && ByteLen("a") == 1;
    assert s[..2] == s && ByteLen(s) == 3;
    assert !IsCharBoundary(s, 2);
  }

  /** The truncation as intended: a message of at most `n` bytes is kept; a
      longer one becomes its longest prefix of at most `n` bytes plus "...",
      so the result never exceeds `n + 3` bytes. */
  function Truncate(message: string, n: nat): (r: string)
    ensures ByteLen(message) <= n ==> r == message
    ensures ByteLen(message) > n ==>
      var k := CharsWithin(message, n);
      && r == message[..k] + "..."
      && ByteLen(message[..k]) <= n && k < |message| && ByteLen(message[..k + 1]) > n
    ensures ByteLen(r) <= n + 3
  {
    CharsWithinFits(message, n);
    if ByteLen(message) > n then
      var k := CharsWithin(message, n);
      assert message[..|message|] == message;
      ByteLenAppend(message[..k], "...");
      ByteLenAscii("...");
      message[..k] + "..."
    else message
  }

  /** Wherever the code as written does not panic, the intended truncation
      gives the same text, and on ASCII messages it never panics. */
  lemma TruncateAgrees(message: string, n: nat)
    ensures TruncateAsWritten(message, n).Some? ==> TruncateAsWritten(message, n).value == Truncate(message, n)
    ensures (forall i :: 0 <= i < |message| ==> message[i] as int < 0x80) ==>
      TruncateAsWritten(message, n) == Some(Truncate(message, n))
  {
    if (forall i :: 0 <= i < |message| ==> message[i] as int < 0x80) && ByteLen(message) > n {
      ByteLenAscii(message);
      assert message[..n] == message[..n];
      ByteLenAscii(message[..n]);
      assert IsCharBoundary(message, n);
    }
  }

  /** One syslog line as the widget shows it. */
  function ShapeLine(line: string, characterLength: nat): string
  {
    Truncate(Message(line), characterLength)
  }

  /** `simple_tail` over a log whose lines are `fileLines`, oldest first: it
      reads the file backwards, so it yields the last `n` lines newest first. */
  function Tail(fileLines: seq<string>, n: nat): (r: seq<string>)
    ensures |r| == if n < |fileLines| then n else |fileLines|
    ensures forall i :: 0 <= i < |r| ==> r[i] == fileLines[|fileLines| - 1 - i]
  {
    var k := if n < |fileLines| then n else |fileLines|;
    seq(k, i requires 0 <= i < k => fileLines[|fileLines| - 1 - i])
  }

  /** `.rev()` over a newest-first tail: the same lines back in file order. */
  function FileOrder(tail: seq<string>): (r: seq<string>)
    ensures |r| == |tail|
  {
    seq(|tail|, i requires 0 <= i < |tail| => tail[|tail| - 1 - i])
  }

  /** Each line of `lines` in the shape the widget shows. */
  function Shaped(lines: seq<string>, characterLength: nat): (r: seq<string>)
    ensures |r| == |lines|
  {
    seq(|lines|, i requires 0 <= i < |lines| => ShapeLine(lines[i], characterLength))
  }

  /** `collect_recent_syslog_lines`: `tail` is what `simple_tail` returned,
      newest first (`None` when the log cannot be read); the widget shows
      those lines in file order, oldest first, each shaped. */
  function SyslogLines(tail: Option<seq<string>>, characterLength: nat): (r: seq<string>)
    ensures tail.None? ==> r == ["Error reading syslog"]
    ensures tail.Some? ==> |r| == |tail.value|
  {
    match tail
    case None => ["Error reading syslog"]
    case Some(lines) => Shaped(FileOrder(lines), characterLength)
  }

  lemma FileOrderCons(newest: string, older: seq<string>)
    ensures FileOrder([newest] + older) == FileOrder(older) + [newest]
  {
    var all := [newest] + older;
    forall i | 0 <= i < |all|
      ensures FileOrder(all)[i] == (FileOrder(older) + [newest])[i]
    {
      if i < |older| {
        assert all[|all| - 1 - i] == older[|older| - 1 - i];
      }
    }
  }

  lemma ShapedSnoc(lines: seq<string>, last: string, characterLength: nat)
    ensures Shaped(lines + [last], characterLength) == Shaped(lines, characterLength) + [ShapeLine(last, characterLength)]
  {
    var all := lines + [last];
    assert forall i :: 0 <= i < |lines| ==> all[i] == lines[i];
  }

  /** The newest line of the tail is shown last, below the older ones. */
  lemma SyslogNewestLast(newest: string, older: seq<string>, characterLength: nat)
    ensures SyslogLines(Some([newest] + older), characterLength)
      == SyslogLines(Some(older), characterLength) + [ShapeLine(newest, characterLength)]
  {
    FileOrderCons(newest, older);
    ShapedSnoc(FileOrder(older), newest, characterLength);
  }

  /** For a readable log the widget shows its last `n` lines (all of them
      when it is shorter) in file order, each shaped. */
  lemma SyslogShowsLastLines(fileLines: seq<string>, n: nat, characterLength: nat)
    ensures var k := if n < |fileLines| then n else |fileLines|;
      SyslogLines(Some(Tail(fileLines, n)), characterLength)
        == Shaped(fileLines[|fileLines| - k..], characterLength)
  {
    TailInFileOrder(fileLines, n);
  }

  /** Reversing the tail gives the last lines of the file in file order. */
  lemma TailInFileOrder(fileLines: seq<string>, n: nat)
    ensures var k := if n < |fileLines| then n else |fileLines|;
      FileOrder(Tail(fileLines, n)) == fileLines[|fileLines| - k..]
  {
    var k := if n < |fileLines| then n else |fileLines|;
    var t := Tail(fileLines, n);
    forall i | 0 <= i < k
      ensures FileOrder(t)[i] == fileLines[|fileLines| - k..][i]
    {
      assert FileOrder(t)[i] == t[k - 1 - i];
    }
  }

  /** A readable log yields one line per log line, each within
      `characterLength + 3` bytes; an unreadable one yields the error line. */
  lemma SyslogLinesBounded(tail: Option<seq<string>>, characterLength: nat)
    ensures tail.Some? ==> forall i :: 0 <= i < |tail.value| ==>
      ByteLen(SyslogLines(tail, characterLength)[i]) <= characterLength + 3
  {
    match tail {
      case None =>
      case Some(lines) =>
        forall i | 0 <= i < |lines|
          ensures ByteLen(SyslogLines(tail, characterLength)[i]) <= characterLength + 3
        {
          var line := FileOrder(lines)[i];
          assert SyslogLines(tail, characterLength)[i] == Truncate(Message(line), characterLength);
        }
    }
  }

  // ---------------------------------------------------------------- sensors

  /** `models::system::SystemComponent` */
  datatype SystemComponent = SystemComponent(labelText: string, temperature: real)

  /** The text a hint is looked up in: "name label model path" with double
      spaces collapsed once, trimmed and lower-cased. */
  function Reference(s: Sensor): string
  {
    Lower(Trim(Replace(s.name + " " + s.labelText + " " + s.model + " " + s.path, "  ", " ")))
  }

  predicate Matches(s: Sensor, hint: string)
  {
    Contains(Reference(s), hint)
  }

  /** Hints are compared as written, so one holding a capital letter never matches. */
  lemma CapitalHintNeverMatches(s: Sensor, hint: string, j: nat)
    requires j < |hint| && IsAsciiUpper(hint[j])
    ensures !Matches(s, hint)
  {
    UpperNeverInLower(Trim(Replace(s.name + " " + s.labelText + " " + s.model + " " + s.path, "  ", " ")), hint, j);
  }

  /** The inner loop for one sensor over the first hints, in order. */
  function MatchHints(readings: IndexMap<string, SystemComponent>, s: Sensor, hints: seq<(string, string)>)
    : (r: IndexMap<string, SystemComponent>)
    requires readings.Valid()
    ensures r.Valid()
  {
    if hints == [] then readings
    else
      var before := MatchHints(readings, s, hints[..|hints| - 1]);
      var hint := hints[|hints| - 1];
      if Matches(s, hint.0) then before.Insert(hint.1, SystemComponent(hint.1, s.temperature)) else before
  }

  lemma MatchHintsStep(readings: IndexMap<string, SystemComponent>, s: Sensor, hints: seq<(string, string)>, j: nat)
    requires readings.Valid() && j < |hints|
    ensures MatchHints(readings, s, hints[..j + 1]) ==
      var before := MatchHints(readings, s, hints[..j]);
      if Matches(s, hints[j].0) then before.Insert(hints[j].1, SystemComponent(hints[j].1, s.temperature)) else before
  {
    assert hints[..j + 1][..j] == hints[..j];
  }

  /** Both loops over the sensors, in order. */
  function Readings(sensors: seq<Sensor>, hints: seq<(string, string)>): (r: IndexMap<string, SystemComponent>)
    ensures r.Valid()
  {
    if sensors == [] then EmptyMap()
    else MatchHints(Readings(sensors[..|sensors| - 1], hints), sensors[|sensors| - 1], hints)
  }

  /** The inner loop of `collect_sensors` for one sensor. */
  method MatchSensor(start: IndexMap<string, SystemComponent>, sensor: Sensor, hints: seq<(string, string)>)
    returns (readings: IndexMap<string, SystemComponent>)
    requires start.Valid()
    ensures readings == MatchHints(start, sensor, hints)
  {
    readings := start;
    var j := 0;
    while j < |hints|
      invariant 0 <= j <= |hints|
      invariant readings == MatchHints(start, sensor, hints[..j])
    {
      var (allowedLabelHint, renameTo) := hints[j];
      var reference := Reference(sensor);
      MatchHintsStep(start, sensor, hints, j);
      assert hints[j].0 == allowedLabelHint && Contains(reference, allowedLabelHint) == Matches(sensor, allowedLabelHint);
      if Contains(reference, allowedLabelHint) {
        readings := readings.Insert(renameTo, SystemComponent(renameTo, sensor.temperature));
      }
      j := j + 1;
    }
    assert hints[..j] == hints;
  }

  /** The matching loops of `collect_sensors`: for every sensor and every
      (hint, rename_to) pair, a sensor whose reference contains the hint is
      stored under `rename_to`. */
  method CollectReadings(sensors: seq<Sensor>, allowed: IndexMap<string, string>)
    returns (readings: IndexMap<string, SystemComponent>)
    ensures readings == Readings(sensors, allowed.entries)
  {
    var hints := allowed.entries;
    readings := EmptyMap();
    var i := 0;
    while i < |sensors|
      invariant 0 <= i <= |sensors|
      invariant readings == Readings(sensors[..i], hints)
    {
      var sensor := sensors[i];
      assert sensors[..i + 1][..i] == sensors[..i];
      readings := MatchSensor(readings, sensor, hints);
      i := i + 1;
    }
    assert sensors[..i] == sensors;
  }

  /** Every reading is labelled with the key it is stored under. */
  lemma {:induction false} MatchHintsLabelled(readings: IndexMap<string, SystemComponent>, s: Sensor, hints: seq<(string, string)>)
    requires readings.Valid()
    requires forall k :: readings.Get(k).Some? ==> readings.Get(k).value.labelText == k
    ensures forall k :: MatchHints(readings, s, hints).Get(k).Some? ==> MatchHints(readings, s, hints).Get(k).value.labelText == k
  {
    if hints != [] {
      MatchHintsLabelled(readings, s, hints[..|hints| - 1]);
    }
  }

  lemma {:induction false} ReadingsLabelled(sensors: seq<Sensor>, hints: seq<(string, string)>)
    ensures forall k :: Readings(sensors, hints).Get(k).Some? ==> Readings(sensors, hints).Get(k).value.labelText == k
  {
    if sensors != [] {
      ReadingsLabelled(sensors[..|sensors| - 1], hints);
      MatchHintsLabelled(Readings(sensors[..|sensors| - 1], hints), sensors[|sensors| - 1], hints);
    }
  }

  /** Once a sensor matched a hint renamed `k`, the rest of its hints keep
      its reading under `k`: the other keys they write differ, and any
      other hint renamed `k` writes the same reading. */
  lemma {:induction false} MatchHintsKeeps(readings: IndexMap<string, SystemComponent>, s: Sensor, hints: seq<(string, string)>, j: nat)
    requires readings.Valid()
    requires j < |hints| && Matches(s, hints[j].0)
    ensures MatchHints(readings, s, hints).Get(hints[j].1) == Some(SystemComponent(hints[j].1, s.temperature))
    decreases |hints|
  {
    var init := hints[..|hints| - 1];
    var last := hints[|hints| - 1];
    var before := MatchHints(readings, s, init);
    var matched := Matches(s, last.0);
    var k, v := hints[j].1, SystemComponent(hints[j].1, s.temperature);
    assert MatchHints(readings, s, hints) ==
      if matched then before.Insert(last.1, SystemComponent(last.1, s.temperature)) else before;
    if j < |hints| - 1 {
      assert init[j] == hints[j];
      MatchHintsKeeps(readings, s, init, j);
      KeptAfterStep(before, k, v, last.1, SystemComponent(last.1, s.temperature), matched);
    }
  }

  /** A key holding `v` still holds it after an optional insert that either
      writes another key or writes `v` again. */
  lemma KeptAfterStep(m: IndexMap<string, SystemComponent>, k: string, v: SystemComponent,
                      k2: string, v2: SystemComponent, insert: bool)
    requires m.Valid() && m.Get(k) == Some(v) && (k2 == k ==> v2 == v)
    ensures (if insert then m.Insert(k2, v2) else m).Get(k) == Some(v)
  {
  }

  /** The later sensor wins: when the last sensor matches some hint renamed
      `k`, the reading under `k` is that sensor's. */
  lemma LastMatchWins(sensors: seq<Sensor>, last: Sensor, hints: seq<(string, string)>, j: nat)
    requires j < |hints| && Matches(last, hints[j].0)
    ensures Readings(sensors + [last], hints).Get(hints[j].1) == Some(SystemComponent(hints[j].1, last.temperature))
  {
    assert (sensors + [last])[..|sensors|] == sensors;
    MatchHintsKeeps(Readings(sensors, hints), last, hints, j);
  }

  /** A sensor that matches no hint leaves the readings as they were. */
  lemma {:induction false} UnmatchedSensorChangesNothing(readings: IndexMap<string, SystemComponent>, s: Sensor, hints: seq<(string, string)>)
    requires readings.Valid()
    requires forall j :: 0 <= j < |hints| ==> !Matches(s, hints[j].0)
    ensures MatchHints(readings, s, hints) == readings
  {
    if hints != [] {
      UnmatchedSensorChangesNothing(readings, s, hints[..|hints| - 1]);
    }
  }

  // ---------------------------------------------------------------- processes

  /** The `--sort=-<key>` argument for `ps`. */
  function SortKey(sortBy: string): (key: string)
    ensures key == "pcpu" <==> sortBy == "cpu"
    ensures key == "pmem" <==> sortBy != "cpu"
  {
    if sortBy == "memory" then "pmem"
    else if sortBy == "cpu" then "pcpu"
    else "pmem"
  }

  /** The `ps` lines handed to the parser: none when the command failed
      (`None`) or printed only a header, otherwise at most `count` lines
      after the header, in order. */
  function DataLines(output: Option<seq<string>>, count: nat): (r: seq<string>)
    ensures output.None? ==> r == []
    ensures output.Some? ==>
      && |r| == (if |output.value| > 1 then Min(count, |output.value| - 1) else 0)
      && forall i :: 0 <= i < |r| ==> r[i] == output.value[i + 1]
  {
    match output
    case None => []
    case Some(lines) => if |lines| > 1 then lines[1..Min(count + 1, |lines|)] else []
  }
}
