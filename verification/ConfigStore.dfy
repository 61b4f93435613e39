/** The configuration object of kernel/config.c.  The cursor loops over lines, names,
    values and keys, the chain of appends into the output buffer, and load and set as
    methods that replace the configuration as a whole or not at all; proved against
    ConfigText. */
module ConfigStore {
  import opened Words
  import opened Wrappers
  import opened ConfigText

  // ----- reading

  /** The loop over a line for its one '='. */
  method FindSeparator(line: string) returns (r: Option<nat>)
    ensures r == Separator(line) && (r.Some? ==> r.value < |line|)
  {
    hide FirstEquals;
    var separator: nat := |line|;
    var index: nat := 0;
    while index < |line|
      invariant index <= |line|
      invariant separator == |line| || separator < index
      invariant separator <= |line|
      invariant separator < |line| ==> line[separator] == '='
      invariant forall k :: 0 <= k < index && line[k] == '=' ==> k == separator
    {
      if line[index] == '=' {
        if separator != |line| {
          EqualsAt(line, separator);
          EqualsAt(line[separator + 1..], index - separator - 1);
          return None;
        }
        separator := index;
      }
      index := index + 1;
    }
    EqualsAt(line, separator);
    if separator == 0 || separator == |line| { return None; }
    EqualsAt(line[separator + 1..], |line| - separator - 1);
    r := Some(separator);
  }

  lemma EqualsAt(s: string, i: nat)
    requires i <= |s| && (i < |s| ==> s[i] == '=') && forall k :: 0 <= k < i ==> s[k] != '='
    ensures FirstEquals(s) == i
  {
  }

  /** `parse_decimal` */
  method ScanNumber(s: string) returns (r: Option<u32>)
    ensures r == ParseNumber(s)
  {
    if s == "" { return None; }
    var value: u32 := 0;
    var index := 0;
    assert s[0..] == s;
    while index < |s|
      invariant index <= |s| && ParseDigits(s, 0) == ParseDigits(s[index..], value)
    {
      if s[index] < '0' || s[index] > '9' { return None; }
      var digit := DigitOf(s[index]);
      if value > (M32 - 1 - digit) / 10 { return None; }
      assert s[index..][1..] == s[index + 1..];
      value := value * 10 + digit;
      index := index + 1;
    }
    return Some(value);
  }

  /** `copy_remote_key` */
  method CopyKey(source: string) returns (r: Option<string>)
    ensures r == if GoodKey(source) then Some(source) else None
  {
    if |source| >= KEY_CAPACITY { return None; }
    var copied := "";
    var index := 0;
    while index < |source|
      invariant index <= |source| && copied == source[..index] && forall k :: 0 <= k < index ==> KeyChar(source[k])
    {
      if source[index] < '\U{21}' || source[index] > '\U{7e}' || source[index] == '=' {
        assert source[index] in source && !KeyChar(source[index]);
        return None;
      }
      copied := copied + [source[index]];
      index := index + 1;
    }
    assert source[..index] == source;
    r := Some(copied);
  }

  /** `parse_line` up to the duplicate check. */
  method ScanLine(line: string) returns (r: Option<Setting>)
    ensures r == ReadLine(line)
  {
    hide Separator, ParseNumber, GoodKey;
    var separator := FindSeparator(line);
    if separator.None? { return None; }
    var name, value := line[..separator.value], line[separator.value + 1..];
    if name == "config.version" {
      var version := ScanNumber(value);
      return if version == Some(1) then Some(Version) else None;
    } else if name == "remote.enabled" {
      return if value == "true" then Some(Enabled(true)) else if value == "false" then Some(Enabled(false)) else None;
    } else if name == "remote.port" {
      var port := ScanNumber(value);
      return if port.None? || port.value == 0 || port.value > 65535 then None else Some(Port(port.value));
    } else if name == "remote.key" {
      var key := CopyKey(value);
      return if key.Some? then Some(Key(key.value)) else None;
    } else if name == "log.level" {
      return if value == "info" then Some(Level) else None;
    }
    return None;
  }

  method ScanLineEnd(text: string, start: nat) returns (cursor: nat)
    requires start <= |text|
    ensures cursor == start + LineEnd(text[start..]) <= |text|
  {
    hide LineEnd;
    cursor := start;
    while cursor < |text| && text[cursor] != '\n' && text[cursor] != '\r'
      invariant start <= cursor <= |text| && forall k :: start <= k < cursor ==> !IsBreak(text[k])
    {
      cursor := cursor + 1;
    }
    BreakAt(text[start..], cursor - start);
  }

  lemma BreakAt(s: string, i: nat)
    requires i <= |s| && (i < |s| ==> IsBreak(s[i])) && forall k :: 0 <= k < i ==> !IsBreak(s[k])
    ensures LineEnd(s) == i
  {
  }

  /** An empty line stands for no setting. */
  lemma EmptyLine()
    ensures ReadLine("") == None
  {
  }

  lemma LinesFrom(text: string, start: nat)
    requires start < |text|
    ensures var i := LineEnd(text[start..]);
            Lines(text[start..]) == [text[start..start + i]] + Lines(AfterBreak(text[start + i..]))
  {
    hide LineEnd, AfterBreak;
    var i := LineEnd(text[start..]);
    assert text[start..][..i] == text[start..start + i];
    assert text[start..][i..] == text[start + i..];
  }

  lemma TakeFirst(p: Partial, line: string, rest: seq<string>)
    ensures TakeLines(p, [line] + rest)
            == match TakeLine(p, line) case None => None case Some(q) => TakeLines(q, rest)
  {
    assert ([line] + rest)[1..] == rest;
  }

  method SkipBreak(text: string, cursor: nat) returns (next: nat)
    requires cursor <= |text|
    ensures cursor <= next <= |text| && text[next..] == AfterBreak(text[cursor..])
  {
    next := cursor;
    if next < |text| && text[next] == '\r' { next := next + 1; }
    if next < |text| && text[next] == '\n' { next := next + 1; }
  }

  /** The line loop of `arwill_config_load`. */
  method TakeText(text: string) returns (r: Option<Partial>)
    ensures r == TakeLines(Partial(DEFAULTS, {}), Lines(text))
  {
    hide Lines, LineEnd, AfterBreak, ReadLine, TakeLines, Apply;
    var p := Partial(DEFAULTS, {});
    var cursor: nat := 0;
    assert text[0..] == text;
    while cursor < |text|
      invariant cursor <= |text|
      invariant TakeLines(Partial(DEFAULTS, {}), Lines(text)) == TakeLines(p, Lines(text[cursor..]))
    {
      var start := cursor;
      LinesFrom(text, start);
      cursor := ScanLineEnd(text, start);
      ghost var line := text[start..cursor];
      ghost var tail := text[cursor..];
      TakeFirst(p, line, Lines(AfterBreak(tail)));
      if cursor == start {
        EmptyLine();
        assert line == "";
        return None;
      }
      var setting := ScanLine(text[start..cursor]);
      if setting.None? || FieldOf(setting.value) in p.seen { return None; }
      p := Partial(Apply(p.config, setting.value), p.seen + {FieldOf(setting.value)});
      cursor := SkipBreak(text, cursor);
    }
    assert text[cursor..] == "";
    assert TakeLines(p, Lines("")) == Some(p) by { NoLines(); NothingToTake(p); }
    r := Some(p);
  }

  lemma NothingToTake(p: Partial)
    ensures TakeLines(p, []) == Some(p)
  {
  }

  // ----- writing

  method AppendText(output: array<char>, at: nat, text: string) returns (ok: bool, offset: nat)
    requires at <= output.Length
    modifies output
    ensures ok <==> at + |text| <= output.Length
    ensures ok ==> offset == at + |text| && output[..offset] == old(output[..at]) + text
  {
    offset := at;
    var index := 0;
    while index < |text|
      invariant index <= |text| && offset == at + index <= output.Length
      invariant output[..offset] == old(output[..at]) + text[..index]
    {
      if offset >= output.Length { return false, offset; }
      output[offset] := text[index];
      offset := offset + 1;
      index := index + 1;
      assert output[..offset] == output[..offset - 1] + [text[index - 1]];
    }
    assert text[..index] == text;
    ok := true;
  }

  /** The digits of `append_decimal`, collected from the right. */
  method Digits(n: nat) returns (text: string)
    ensures text == Decimal(n)
  {
    var value := n;
    text := "";
    while true
      invariant Decimal(n) == Decimal(value) + text
      decreases value
    {
      if value < 10 { break; }
      assert Decimal(value) + text == Decimal(value / 10) + ([Digit(value % 10)] + text);
      text := [Digit(value % 10)] + text;
      value := value / 10;
    }
    text := [Digit(value)] + text;
  }

  /** `persist_config` up to the file write: the text always fits. */
  method PrintInto(output: array<char>, c: Config) returns (length: nat)
    requires output.Length == OUTPUT_CAPACITY && ConfigOk(c)
    modifies output
    ensures length <= output.Length && output[..length] == Print(c)
  {
    hide Decimal, GoodKey;
    PrintFits(c);
    var digits := Digits(c.remotePort);
    var on := if c.remoteEnabled then "true\n" else "false\n";
    var header := "config.version=1\n";
    length := AppendAll(output, header, "remote.enabled=", on, "remote.port=", digits, "\nremote.key=", c.remoteKey,
                        "\nlog.level=info\n");
  }

  /** The chain of appends, which goes through when everything fits. */
  method AppendAll(output: array<char>, a: string, b: string, c: string, d: string, e: string, f: string, g: string,
                   h: string) returns (length: nat)
    requires |a + b + c + d + e + f + g + h| <= output.Length
    modifies output
    ensures length <= output.Length && output[..length] == a + b + c + d + e + f + g + h
  {
    var ok: bool;
    ok, length := AppendText(output, 0, a);
    assert output[..length] == a;
    ok, length := AppendText(output, length, b);
    ok, length := AppendText(output, length, c);
    ok, length := AppendText(output, length, d);
    ok, length := AppendText(output, length, e);
    ok, length := AppendText(output, length, f);
    ok, length := AppendText(output, length, g);
    ok, length := AppendText(output, length, h);
  }

  // ----- the object

  datatype Stored = Missing | NotText | TextFile(contents: string)

  function Loaded(file: Stored): Config {
    match file
    case Missing => DEFAULTS
    case NotText => REJECTED
    case TextFile(contents) => LoadText(contents)
  }

  /** The configuration `arwill_config_set` wants to store, if key and value are good. */
  function Requested(c: Config, key: string, value: string): Option<Config> {
    if key == "remote.enabled" then
      if value == "true" then Some(c.(remoteEnabled := true))
      else if value == "false" then Some(c.(remoteEnabled := false)) else None
    else if key == "remote.port" then
      match ParseNumber(value)
      case None => None
      case Some(port) => if port == 0 || port > 65535 then None else Some(c.(remotePort := port))
    else if key == "log.level" then if value == "info" then Some(c) else None
    else None
  }

  /** `set` takes a key and a value exactly when the file could hold them as a line for a
      setting other than the version and the key, and does what loading that line does. */
  lemma SetIsItsLine(c: Config, key: string, value: string)
    ensures Requested(c, key, value) ==
            match ReadSetting(key, value)
            case Some(Enabled(on)) => Some(Apply(c, Enabled(on)))
            case Some(Port(port)) => Some(Apply(c, Port(port)))
            case Some(Level) => Some(c)
            case _ => None
  {
    hide ParseNumber, GoodKey;
  }

  class Configuration {
    var config: Config
    var file: Stored

    ghost predicate Valid()
      reads this
    {
      config.valid ==> ConfigOk(config)
    }

    constructor (file: Stored)
      ensures Valid() && config == DEFAULTS && this.file == file
    {
      config := DEFAULTS;
      this.file := file;
    }

    /** `arwill_config_load` */
    method Load() returns (ok: bool)
      modifies this`config
      ensures Valid() && config == Loaded(file) && ok == config.valid
    {
      hide Lines, TakeLines;
      if file.Missing? {
        config := DEFAULTS;
        return true;
      }
      if file.NotText? || file.contents == "" || |file.contents| > FILE_CAPACITY {
        config := REJECTED;
        return false;
      }
      var p := TakeText(file.contents);
      if p.None? || p.value.seen != ALL_FIELDS {
        config := REJECTED;
        return false;
      }
      config := p.value.config.(loadedFromFile := true, valid := true);
      LoadedIsOk(file.contents);
      ok := true;
    }

    /** Writes the candidate. `written` is the filesystem's answer; after a failed
        write the file may hold anything. */
    method Store(candidate: Config, written: bool, leftover: Stored) returns (ok: bool)
      requires ConfigOk(candidate) && candidate.valid && Valid()
      modifies this
      ensures Valid() && ok == written
      ensures ok ==> config == candidate.(loadedFromFile := true) && file == TextFile(Print(candidate)) && Loaded(file) == config
      ensures !ok ==> config == old(config) && file == leftover
    {
      hide Print, LoadText;
      var output := new char[OUTPUT_CAPACITY];
      var length := PrintInto(output, candidate);
      if !written {
        file := leftover;
        return false;
      }
      file := TextFile(output[..length]);
      config := candidate.(loadedFromFile := true);
      PrintedReloads(candidate);
      ok := true;
    }

    /** `arwill_config_set`: on success the file reloads to the new configuration, on
        failure the configuration is the old one. */
    method Set(key: string, value: string, written: bool, leftover: Stored) returns (ok: bool)
      requires Valid()
      modifies this
      ensures Valid()
      ensures ok <==> old(config).valid && Requested(old(config), key, value).Some? && written
      ensures ok ==> config == Requested(old(config), key, value).value.(loadedFromFile := true) && Loaded(file) == config
      ensures ok ==> key == "remote.enabled" || key == "remote.port" || key == "log.level"
      ensures ok && key == "remote.enabled" ==>
                && config == old(config).(remoteEnabled := value == "true", loadedFromFile := true)
                && (value == "true" || value == "false")
      ensures ok && key == "remote.port" ==>
                && config == old(config).(remotePort := config.remotePort, loadedFromFile := true)
                && ParseNumber(value) == Some(config.remotePort) && config.remotePort != 0
      ensures ok && key == "log.level" ==> config == old(config).(loadedFromFile := true) && value == "info"
      ensures !ok ==> config == old(config)
    {
      hide Print, LoadText, ParseNumber, GoodKey;
      if !config.valid { return false; }
      var candidate := config;
      if key == "remote.enabled" {
        if value == "true" {
          candidate := candidate.(remoteEnabled := true);
        } else if value == "false" {
          candidate := candidate.(remoteEnabled := false);
        } else {
          return false;
        }
      } else if key == "remote.port" {
        var port := ScanNumber(value);
        if port.None? || port.value == 0 || port.value > 65535 { return false; }
        candidate := candidate.(remotePort := port.value);
      } else if key == "log.level" {
        if value != "info" { return false; }
      } else {
        return false;
      }
      ok := Store(candidate, written, leftover);
    }

    /** `arwill_config_set_remote_key` */
    method SetRemoteKey(value: string, written: bool, leftover: Stored) returns (ok: bool)
      requires Valid()
      modifies this
      ensures Valid()
      ensures ok <==> old(config).valid && GoodKey(value) && written
      ensures ok ==> config == old(config).(remoteKey := value, loadedFromFile := true) && Loaded(file) == config
      ensures !ok ==> config == old(config)
    {
      hide Print, LoadText;
      if !config.valid { return false; }
      var key := CopyKey(value);
      if key.None? { return false; }
      ok := Store(config.(remoteKey := key.value), written, leftover);
    }
  }
}
