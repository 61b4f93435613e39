/** kernel/config.c: the strict five-line configuration file, its parser and printer. */
module ConfigText {
  import opened Words
  import opened Wrappers

  const FILE_CAPACITY := 1024
  const OUTPUT_CAPACITY := 256
  const KEY_CAPACITY := 65

  datatype Field = VersionField | EnabledField | PortField | KeyField | LevelField

  datatype Config = Config(
    version: u32, remoteEnabled: bool, remotePort: u16, remoteKey: string, loadedFromFile: bool, valid: bool)

  const DEFAULTS := Config(1, true, 23232, "", false, true)

  /** What a file that cannot be used leaves: defaults with remote access off. */
  const REJECTED := DEFAULTS.(remoteEnabled := false, loadedFromFile := true, valid := false)

  /** One well-formed line. */
  datatype Setting =
    | Version
    | Enabled(on: bool)
    | Port(port: u16)
    | Key(key: string)
    | Level

  function FieldOf(s: Setting): Field {
    match s
    case Version => VersionField
    case Enabled(_) => EnabledField
    case Port(_) => PortField
    case Key(_) => KeyField
    case Level => LevelField
  }

  // ----- values

  predicate IsDigit(c: char) {
    '0' <= c <= '9'
  }

  function DigitOf(c: char): nat
    requires IsDigit(c)
  {
    c as int - '0' as int
  }

  function ParseDigits(s: string, value: u32): Option<u32> {
    if s == "" then Some(value)
    else if !IsDigit(s[0]) then None
    else
      var digit := DigitOf(s[0]);
      if value > (M32 - 1 - digit) / 10 then None else ParseDigits(s[1..], value * 10 + digit)
  }

  function ParseNumber(s: string): Option<u32> {
    if s == "" then None else ParseDigits(s, 0)
  }

  function Digit(n: nat): char
    requires n < 10
  {
    ('0' as int + n) as char
  }

  function Decimal(n: nat): (s: string)
    ensures s != "" && forall c :: c in s ==> IsDigit(c)
  {
    if n < 10 then [Digit(n)] else Decimal(n / 10) + [Digit(n % 10)]
  }

  predicate KeyChar(c: char) {
    '\U{21}' <= c <= '\U{7e}' && c != '='
  }

  predicate GoodKey(k: string) {
    |k| < KEY_CAPACITY && forall c :: c in k ==> KeyChar(c)
  }

  // ----- lines

  /** The index of the only '=', if there is exactly one and a name before it. */
  function Separator(line: string): Option<nat> {
    var i := FirstEquals(line);
    if i == 0 || i == |line| || FirstEquals(line[i + 1..]) != |line| - i - 1 then None else Some(i)
  }

  function FirstEquals(s: string): (i: nat)
    ensures i <= |s| && (i < |s| ==> s[i] == '=') && forall k :: 0 <= k < i ==> s[k] != '='
  {
    if s == "" || s[0] == '=' then 0 else 1 + FirstEquals(s[1..])
  }

  function ReadSetting(name: string, value: string): Option<Setting> {
    if name == "config.version" then if ParseNumber(value) == Some(1) then Some(Version) else None
    else if name == "remote.enabled" then
      if value == "true" then Some(Enabled(true)) else if value == "false" then Some(Enabled(false)) else None
    else if name == "remote.port" then
      match ParseNumber(value)
      case None => None
      case Some(port) => if port == 0 || port > 65535 then None else Some(Port(port))
    else if name == "remote.key" then if GoodKey(value) then Some(Key(value)) else None
    else if name == "log.level" then if value == "info" then Some(Level) else None
    else None
  }

  /** The setting a line stands for. */
  function ReadLine(line: string): Option<Setting> {
    match Separator(line)
    case None => None
    case Some(i) => ReadSetting(line[..i], line[i + 1..])
  }

  function Apply(c: Config, s: Setting): Config {
    match s
    case Version => c.(version := 1)
    case Enabled(on) => c.(remoteEnabled := on)
    case Port(port) => c.(remotePort := port)
    case Key(key) => c.(remoteKey := key)
    case Level => c
  }

  datatype Partial = Partial(config: Config, seen: set<Field>)

  /** `parse_line` */
  function TakeLine(p: Partial, line: string): Option<Partial> {
    match ReadLine(line)
    case None => None
    case Some(s) =>
      if FieldOf(s) in p.seen then None else Some(Partial(Apply(p.config, s), p.seen + {FieldOf(s)}))
  }

  function TakeLines(p: Partial, lines: seq<string>): Option<Partial>
    decreases |lines|
  {
    if lines == [] then Some(p)
    else match TakeLine(p, lines[0])
      case None => None
      case Some(q) => TakeLines(q, lines[1..])
  }

  // ----- files

  predicate IsBreak(c: char) {
    c == '\n' || c == '\r'
  }

  function LineEnd(s: string): (i: nat)
    ensures i <= |s| && (i < |s| ==> IsBreak(s[i])) && forall k :: 0 <= k < i ==> !IsBreak(s[k])
  {
    if s == "" || IsBreak(s[0]) then 0 else 1 + LineEnd(s[1..])
  }

  /** What is left behind the line break at the front: CR, LF or CR LF. */
  function AfterBreak(s: string): (r: string)
    ensures |r| <= |s| && (s != "" && IsBreak(s[0]) ==> |r| < |s|)
  {
    var t := if s != "" && s[0] == '\r' then s[1..] else s;
    if t != "" && t[0] == '\n' then t[1..] else t
  }

  function Lines(s: string): seq<string>
    decreases |s|
  {
    if s == "" then []
    else
      var i := LineEnd(s);
      [s[..i]] + Lines(AfterBreak(s[i..]))
  }

  const ALL_FIELDS := {VersionField, EnabledField, PortField, KeyField, LevelField}

  /** `arwill_config_load` on the contents of a text file. */
  function LoadText(text: string): Config {
    if text == "" || |text| > FILE_CAPACITY then REJECTED
    else match TakeLines(Partial(DEFAULTS, {}), Lines(text))
      case None => REJECTED
      case Some(p) =>
        if p.seen != ALL_FIELDS then REJECTED else p.config.(loadedFromFile := true, valid := true)
  }

  function Print(c: Config): string {
    "config.version=1\n" + "remote.enabled=" + (if c.remoteEnabled then "true\n" else "false\n")
    + "remote.port=" + Decimal(c.remotePort) + "\nremote.key=" + c.remoteKey + "\nlog.level=info\n"
  }

  // ----- what loading means

  predicate Agrees(c: Config, s: Setting) {
    match s
    case Version => c.version == 1
    case Enabled(on) => c.remoteEnabled == on
    case Port(port) => c.remotePort == port
    case Key(key) => c.remoteKey == key
    case Level => true
  }

  /** The settings the lines stand for. */
  function Settings(lines: seq<string>): Option<seq<Setting>> {
    if lines == [] then Some([])
    else match ReadLine(lines[0])
      case None => None
      case Some(s) =>
        match Settings(lines[1..])
        case None => None
        case Some(rest) => Some([s] + rest)
  }

  predicate Distinct(ss: seq<Setting>) {
    forall i, j :: 0 <= i < j < |ss| ==> FieldOf(ss[i]) != FieldOf(ss[j])
  }

  function Fields(ss: seq<Setting>): set<Field> {
    set s | s in ss :: FieldOf(s)
  }

  function Disjoint(p: Partial, ss: seq<Setting>): bool {
    forall s :: s in ss ==> FieldOf(s) !in p.seen
  }

  function Applied(c: Config, ss: seq<Setting>): Config
    decreases |ss|
  {
    if ss == [] then c else Applied(Apply(c, ss[0]), ss[1..])
  }

  /** Lines are taken exactly when every one is a setting, none twice and none again. */
  lemma {:induction false} TakenIff(p: Partial, lines: seq<string>)
    ensures var ss := Settings(lines);
            && (TakeLines(p, lines).Some? <==> ss.Some? && Distinct(ss.value) && Disjoint(p, ss.value))
            && (TakeLines(p, lines).Some? ==>
                  TakeLines(p, lines).value == Partial(Applied(p.config, ss.value), p.seen + Fields(ss.value)))
    decreases |lines|
  {
    hide ReadLine, Apply;
    if lines == [] {
      assert p.seen + Fields([]) == p.seen;
    } else if ReadLine(lines[0]).Some? {
      var s := ReadLine(lines[0]).value;
      var q := Partial(Apply(p.config, s), p.seen + {FieldOf(s)});
      TakenIff(q, lines[1..]);
      if Settings(lines[1..]).Some? {
        var rest := Settings(lines[1..]).value;
        DistinctStep(s, rest);
        FieldsStep(s, rest);
        DisjointStep(p, q, s, rest);
        assert ([s] + rest)[1..] == rest;
      }
    }
  }

  lemma DistinctStep(s: Setting, rest: seq<Setting>)
    ensures Distinct([s] + rest) <==> Distinct(rest) && forall x :: x in rest ==> FieldOf(x) != FieldOf(s)
  {
    var all := [s] + rest;
    if Distinct(all) {
      forall i, j | 0 <= i < j < |rest| ensures FieldOf(rest[i]) != FieldOf(rest[j]) {
        assert all[i + 1] == rest[i] && all[j + 1] == rest[j];
      }
      forall x | x in rest ensures FieldOf(x) != FieldOf(s) {
        var j :| 0 <= j < |rest| && rest[j] == x;
        assert all[0] == s && all[j + 1] == x;
      }
    }
    if Distinct(rest) && forall x :: x in rest ==> FieldOf(x) != FieldOf(s) {
      forall i, j | 0 <= i < j < |all| ensures FieldOf(all[i]) != FieldOf(all[j]) {
        assert all[j] == rest[j - 1] && rest[j - 1] in rest;
        if i > 0 { assert all[i] == rest[i - 1]; }
      }
    }
  }

  lemma FieldsStep(s: Setting, rest: seq<Setting>)
    ensures Fields([s] + rest) == {FieldOf(s)} + Fields(rest)
  {
    assert forall x :: x in [s] + rest <==> x == s || x in rest;
  }

  lemma DisjointStep(p: Partial, q: Partial, s: Setting, rest: seq<Setting>)
    requires q.seen == p.seen + {FieldOf(s)}
    ensures (Disjoint(p, [s] + rest) && forall x :: x in rest ==> FieldOf(x) != FieldOf(s)) <==>
            FieldOf(s) !in p.seen && Disjoint(q, rest)
  {
    assert forall x :: x in [s] + rest <==> x == s || x in rest;
  }

  /** `c` and `d` differ at most in the given fields. */
  predicate SameOutside(c: Config, d: Config, fields: set<Field>) {
    && c.loadedFromFile == d.loadedFromFile && c.valid == d.valid
    && (VersionField in fields || c.version == d.version)
    && (EnabledField in fields || c.remoteEnabled == d.remoteEnabled)
    && (PortField in fields || c.remotePort == d.remotePort)
    && (KeyField in fields || c.remoteKey == d.remoteKey)
  }

  /** Settings of other fields do not disturb agreement. */
  lemma AgreementKept(c: Config, d: Config, s: Setting, fields: set<Field>)
    requires Agrees(c, s) && SameOutside(c, d, fields) && FieldOf(s) !in fields
    ensures Agrees(d, s)
  {
  }

  lemma ApplyOne(c: Config, s: Setting)
    ensures Agrees(Apply(c, s), s) && SameOutside(c, Apply(c, s), {FieldOf(s)})
  {
  }

  lemma OutsideBoth(b: Config, c: Config, d: Config, f: set<Field>, g: set<Field>)
    requires SameOutside(b, c, f) && SameOutside(c, d, g)
    ensures SameOutside(b, d, f + g)
  {
  }

  /** The configuration agrees with every setting applied, whatever their order. */
  lemma {:induction false} AppliedAgrees(c: Config, ss: seq<Setting>)
    requires Distinct(ss)
    ensures forall s :: s in ss ==> Agrees(Applied(c, ss), s)
    ensures SameOutside(c, Applied(c, ss), Fields(ss))
    decreases |ss|
  {
    hide Agrees, Apply, SameOutside, FieldOf, Distinct;
    if ss == [] {
      SameAsItself(c, Fields(ss));
    } else {
      var s, rest := ss[0], ss[1..];
      assert ss == [s] + rest;
      DistinctStep(s, rest);
      FieldsStep(s, rest);
      AppliedAgrees(Apply(c, s), rest);
      ApplyOne(c, s);
      AgreementKept(Apply(c, s), Applied(c, ss), s, Fields(rest));
      OutsideBoth(c, Apply(c, s), Applied(c, ss), {FieldOf(s)}, Fields(rest));
    }
  }

  lemma SameAsItself(c: Config, fields: set<Field>)
    ensures SameOutside(c, c, fields)
  {
  }

  /** Each of the five settings once, and nothing else. */
  predicate Complete(ss: seq<Setting>) {
    Distinct(ss) && Fields(ss) == ALL_FIELDS
  }

  /** A file is accepted exactly when its lines are the five settings, each once; the
      result then says what the lines say. Otherwise remote access is off. */
  lemma LoadIff(text: string)
    ensures LoadText(text).valid <==>
            text != "" && |text| <= FILE_CAPACITY && Settings(Lines(text)).Some? && Complete(Settings(Lines(text)).value)
    ensures LoadText(text).valid ==>
            LoadText(text).loadedFromFile && forall s :: s in Settings(Lines(text)).value ==> Agrees(LoadText(text), s)
    ensures !LoadText(text).valid ==> LoadText(text) == REJECTED && !LoadText(text).remoteEnabled
  {
    hide Lines, TakeLines, Settings, Distinct, Applied;
    TakenIff(Partial(DEFAULTS, {}), Lines(text));
    var ss := Settings(Lines(text));
    if ss.Some? {
      assert Disjoint(Partial(DEFAULTS, {}), ss.value);
      assert {} + Fields(ss.value) == Fields(ss.value);
      if Distinct(ss.value) { AppliedAgrees(DEFAULTS, ss.value); }
    }
  }

  lemma AgreementDetermines(c: Config, d: Config, ss: seq<Setting>)
    requires Complete(ss) && (forall s :: s in ss ==> Agrees(c, s)) && (forall s :: s in ss ==> Agrees(d, s))
    requires c.loadedFromFile == d.loadedFromFile && c.valid == d.valid
    ensures c == d
  {
    assert VersionField in Fields(ss) && EnabledField in Fields(ss) && PortField in Fields(ss) && KeyField in Fields(ss);
    var v :| v in ss && FieldOf(v) == VersionField;
    var e :| e in ss && FieldOf(e) == EnabledField;
    var p :| p in ss && FieldOf(p) == PortField;
    var k :| k in ss && FieldOf(k) == KeyField;
    assert Agrees(c, v) && Agrees(d, v) && Agrees(c, e) && Agrees(d, e);
    assert Agrees(c, p) && Agrees(d, p) && Agrees(c, k) && Agrees(d, k);
  }

  lemma {:induction false} SettingsOfMembers(lines: seq<string>)
    ensures Settings(lines).Some? <==> forall l :: l in lines ==> ReadLine(l).Some?
    ensures Settings(lines).Some? ==>
            && |Settings(lines).value| == |lines|
            && (forall i :: 0 <= i < |lines| ==> ReadLine(lines[i]) == Some(Settings(lines).value[i]))
  {
    hide ReadLine;
    if lines != [] {
      SettingsOfMembers(lines[1..]);
      assert forall l :: l in lines <==> l == lines[0] || l in lines[1..];
      assert forall i :: 1 <= i < |lines| ==> lines[i] == lines[1..][i - 1];
    }
  }

  /** The order of the lines does not matter. */
  lemma PermutedLines(a: string, b: string)
    requires multiset(Lines(a)) == multiset(Lines(b)) && 0 < |b| <= FILE_CAPACITY
    requires LoadText(a).valid
    ensures LoadText(b) == LoadText(a)
  {
    hide LoadText, Lines, Settings, ReadLine, Distinct;
    LoadIff(a);
    LoadIff(b);
    var la, lb := Lines(a), Lines(b);
    var sa := Settings(la).value;
    SettingsOfMembers(la);
    SettingsOfMembers(lb);
    assert forall l :: l in lb ==> l in multiset(lb);
    assert forall l :: l in multiset(la) ==> l in la;
    assert Settings(lb).Some?;
    var sb := Settings(lb).value;
    SameSettings(la, lb, sa, sb);
    SameSettings(lb, la, sb, sa);
    assert Fields(sb) == Fields(sa);
    DistinctByCount(la, lb, sa, sb);
    AgreementDetermines(LoadText(a), LoadText(b), sa);
  }

  lemma SameSettings(la: seq<string>, lb: seq<string>, sa: seq<Setting>, sb: seq<Setting>)
    requires multiset(la) == multiset(lb) && |sa| == |la| && |sb| == |lb|
    requires forall i :: 0 <= i < |la| ==> ReadLine(la[i]) == Some(sa[i])
    requires forall i :: 0 <= i < |lb| ==> ReadLine(lb[i]) == Some(sb[i])
    ensures forall s :: s in sa ==> s in sb
  {
    hide ReadLine;
    forall s | s in sa ensures s in sb {
      var i :| 0 <= i < |sa| && sa[i] == s;
      assert la[i] in multiset(la);
      assert la[i] in lb;
      var j :| 0 <= j < |lb| && lb[j] == la[i];
      assert sb[j] == s;
    }
  }

  /** Five lines with five different fields stay different in any order. */
  lemma DistinctByCount(la: seq<string>, lb: seq<string>, sa: seq<Setting>, sb: seq<Setting>)
    requires multiset(la) == multiset(lb) && |sa| == |la| && |sb| == |lb| && Complete(sa) && Fields(sb) == Fields(sa)
    ensures Distinct(sb)
  {
    assert |la| == |multiset(la)| == |multiset(lb)| == |lb|;
    CompleteHasFive(sa);
    FiveAreDistinct(sb);
  }

  lemma CompleteHasFive(ss: seq<Setting>)
    requires Complete(ss)
    ensures |ss| == 5
  {
    FieldCount(ss);
    FiveFields();
  }

  lemma FiveFields()
    ensures |ALL_FIELDS| == 5
  {
    assert ALL_FIELDS - {VersionField} == {EnabledField, PortField, KeyField, LevelField};
  }

  lemma {:induction false} FieldCount(ss: seq<Setting>)
    ensures |Fields(ss)| <= |ss|
    ensures |Fields(ss)| == |ss| <==> Distinct(ss)
  {
    if ss == [] {
      assert Fields(ss) == {};
    } else {
      var rest := ss[1..];
      assert ss == [ss[0]] + rest;
      FieldCount(rest);
      FieldsStep(ss[0], rest);
      DistinctStep(ss[0], rest);
      assert FieldOf(ss[0]) in Fields(rest) ==> {FieldOf(ss[0])} + Fields(rest) == Fields(rest);
    }
  }

  lemma FiveAreDistinct(ss: seq<Setting>)
    requires |ss| == 5 && Fields(ss) == ALL_FIELDS
    ensures Distinct(ss)
  {
    FieldCount(ss);
    FiveFields();
  }

  // ----- the printed file

  lemma {:induction false} DigitsAppend(s: string, d: char, value: u32)
    requires IsDigit(d)
    ensures ParseDigits(s + [d], value) ==
            match ParseDigits(s, value)
            case None => None
            case Some(v) => if v > (M32 - 1 - DigitOf(d)) / 10 then None else Some(v * 10 + DigitOf(d))
    decreases |s|
  {
    if s == "" {
      assert s + [d] == [d] && [d][1..] == "";
    } else {
      assert (s + [d])[1..] == s[1..] + [d] && (s + [d])[0] == s[0];
      if IsDigit(s[0]) && value <= (M32 - 1 - DigitOf(s[0])) / 10 {
        DigitsAppend(s[1..], d, value * 10 + DigitOf(s[0]));
      }
    }
  }

  lemma {:induction false} NumberRoundTrip(n: u32)
    ensures ParseNumber(Decimal(n)) == Some(n)
  {
    if n < 10 {
      assert Decimal(n) == [Digit(n)] && [Digit(n)][1..] == "";
      assert ParseDigits("", n) == Some(n);
    } else {
      NumberRoundTrip(n / 10);
      DigitsAppend(Decimal(n / 10), Digit(n % 10), 0);
    }
  }

  predicate AllDigits(s: string) {
    forall c :: c in s ==> IsDigit(c)
  }

  /** The number that decimal digits stand for. */
  function Value(s: string): nat
    requires AllDigits(s)
  {
    if s == "" then 0 else Value(s[..|s| - 1]) * 10 + DigitOf(s[|s| - 1])
  }

  lemma {:induction false} OtherCharacter(s: string, value: u32)
    requires s != "" && !IsDigit(s[|s| - 1])
    ensures ParseDigits(s, value) == None
    decreases |s|
  {
    if |s| > 1 && IsDigit(s[0]) && value <= (M32 - 1 - DigitOf(s[0])) / 10 {
      OtherCharacter(s[1..], value * 10 + DigitOf(s[0]));
    }
  }

  lemma {:induction false} DigitsMeaning(s: string)
    ensures ParseDigits(s, 0) == if AllDigits(s) && Value(s) < M32 then Some(Value(s)) else None
    decreases |s|
  {
    if s != "" {
      var k := |s| - 1;
      assert s == s[..k] + [s[k]];
      DigitsMeaning(s[..k]);
      if IsDigit(s[k]) {
        DigitsAppend(s[..k], s[k], 0);
        assert AllDigits(s) <==> AllDigits(s[..k]);
      } else {
        OtherCharacter(s, 0);
        assert s[k] in s;
      }
    }
  }

  /** A number is read exactly when it is written in decimal digits and fits 32 bits, and
      then as what it stands for. */
  lemma NumberMeaning(s: string)
    ensures ParseNumber(s) == if s != "" && AllDigits(s) && Value(s) < M32 then Some(Value(s)) else None
  {
    DigitsMeaning(s);
  }

  /** How each setting is written. */
  lemma LinesMean(port: u16, key: string)
    requires port != 0 && GoodKey(key)
    ensures ReadLine("config.version=1") == Some(Version) && ReadLine("log.level=info") == Some(Level)
    ensures ReadLine("remote.enabled=true") == Some(Enabled(true))
    ensures ReadLine("remote.enabled=false") == Some(Enabled(false))
    ensures ReadLine("remote.port=" + Decimal(port)) == Some(Port(port))
    ensures ReadLine("remote.key=" + key) == Some(Key(key))
  {
    hide ReadLine, Decimal, ParseNumber;
    FixedLines();
    assert "remote.port" + "=" == "remote.port=" && "remote.key" + "=" == "remote.key=";
    DecimalPlain(port);
    PrintedLine("remote.port", Decimal(port));
    NumberRoundTrip(port);
    PrintedLine("remote.key", key);
  }

  lemma FixedLines()
    ensures ReadLine("config.version=1") == Some(Version) && ReadLine("log.level=info") == Some(Level)
    ensures ReadLine("remote.enabled=true") == Some(Enabled(true))
    ensures ReadLine("remote.enabled=false") == Some(Enabled(false))
  {
    hide ReadLine, ParseNumber;
    assert "config.version=1" == "config.version" + "=" + "1" && "log.level=info" == "log.level" + "=" + "info";
    assert "remote.enabled=true" == "remote.enabled" + "=" + "true";
    assert "remote.enabled=false" == "remote.enabled" + "=" + "false";
    PrintedLine("config.version", "1");
    OneIsOne();
    PrintedLine("remote.enabled", "true");
    PrintedLine("remote.enabled", "false");
    PrintedLine("log.level", "info");
  }

  lemma {:induction false} FirstEqualsOf(name: string, rest: string)
    requires '=' !in name && (rest == "" || rest[0] == '=')
    ensures FirstEquals(name + rest) == |name|
  {
    if name != "" {
      assert (name + rest)[1..] == name[1..] + rest && (name + rest)[0] == name[0];
      FirstEqualsOf(name[1..], rest);
    } else {
      assert name + rest == rest;
    }
  }

  /** A printed line is read as its name and value. */
  lemma PrintedLine(name: string, value: string)
    requires name != "" && '=' !in name && '=' !in value
    ensures ReadLine(name + "=" + value) == ReadSetting(name, value)
  {
    hide ReadSetting, FirstEquals;
    var line := name + "=" + value;
    assert line == name + ("=" + value);
    FirstEqualsOf(name, "=" + value);
    assert line[|name| + 1..] == value && line[..|name|] == name;
    assert value + "" == value;
    FirstEqualsOf(value, "");
  }

  predicate NoBreaks(l: string) {
    forall c :: c in l ==> !IsBreak(c)
  }

  lemma {:induction false} LineEndOf(l: string, rest: string)
    requires NoBreaks(l) && (rest == "" || IsBreak(rest[0]))
    ensures LineEnd(l + rest) == |l|
  {
    if l != "" {
      assert (l + rest)[1..] == l[1..] + rest && (l + rest)[0] == l[0];
      LineEndOf(l[1..], rest);
    } else {
      assert l + rest == rest;
    }
  }

  lemma FirstLine(l: string, rest: string)
    requires NoBreaks(l)
    ensures Lines(l + "\n" + rest) == [l] + Lines(rest)
  {
    hide LineEnd, AfterBreak;
    var s := l + "\n" + rest;
    var tail := "\n" + rest;
    assert s == l + tail;
    LineEndOf(l, tail);
    assert s[..|l|] == l && s[|l|..] == tail;
    SkipsNewline(rest);
  }

  lemma SkipsNewline(rest: string)
    ensures AfterBreak("\n" + rest) == rest
  {
    assert ("\n" + rest)[1..] == rest;
  }

  /** A configuration that may be written: what `arwill_config_load` and
      `arwill_config_set` produce while it is valid. */
  predicate ConfigOk(c: Config) {
    c.version == 1 && c.remotePort != 0 && GoodKey(c.remoteKey)
  }

  function PrintedLines(c: Config): seq<string> {
    ["config.version" + "=" + "1",
     "remote.enabled" + "=" + (if c.remoteEnabled then "true" else "false"),
     "remote.port" + "=" + Decimal(c.remotePort),
     "remote.key" + "=" + c.remoteKey,
     "log.level" + "=" + "info"]
  }

  lemma PrintedSettings(c: Config)
    requires ConfigOk(c)
    ensures Settings(PrintedLines(c)) == Some([Version, Enabled(c.remoteEnabled), Port(c.remotePort), Key(c.remoteKey), Level])
  {
    hide ReadLine, Decimal, ParseNumber;
    var ls := PrintedLines(c);
    PrintedLine("config.version", "1");
    OneIsOne();
    PrintedLine("remote.enabled", if c.remoteEnabled then "true" else "false");
    DecimalPlain(c.remotePort);
    PrintedLine("remote.port", Decimal(c.remotePort));
    NumberRoundTrip(c.remotePort);
    PrintedLine("remote.key", c.remoteKey);
    PrintedLine("log.level", "info");
    SettingsFive(ls[0], ls[1], ls[2], ls[3], ls[4]);
  }

  lemma OneIsOne()
    ensures ParseNumber("1") == Some(1)
  {
    assert Decimal(1) == "1";
    NumberRoundTrip(1);
  }

  lemma DecimalPlain(n: nat)
    ensures '=' !in Decimal(n) && NoBreaks(Decimal(n))
  {
    hide Decimal;
  }

  lemma SettingsFive(a: string, b: string, c: string, d: string, e: string)
    requires ReadLine(a).Some? && ReadLine(b).Some? && ReadLine(c).Some? && ReadLine(d).Some? && ReadLine(e).Some?
    ensures Settings([a, b, c, d, e])
            == Some([ReadLine(a).value, ReadLine(b).value, ReadLine(c).value, ReadLine(d).value, ReadLine(e).value])
  {
    hide ReadLine, Settings;
    var ls := [a, b, c, d, e];
    SettingsOfMembers(ls);
    var ss := Settings(ls).value;
    assert ReadLine(ls[0]) == Some(ss[0]) && ReadLine(ls[1]) == Some(ss[1]) && ReadLine(ls[2]) == Some(ss[2]);
    assert ReadLine(ls[3]) == Some(ss[3]) && ReadLine(ls[4]) == Some(ss[4]);
    assert ss == [ss[0], ss[1], ss[2], ss[3], ss[4]];
  }

  lemma PrintedText(c: Config)
    requires ConfigOk(c)
    ensures Lines(Print(c)) == PrintedLines(c)
  {
    hide Lines, Decimal, NoBreaks, GoodKey;
    var ls := PrintedLines(c);
    LinesPlain(c);
    var t4 := ls[4] + "\n" + "";
    var t3 := ls[3] + "\n" + t4;
    var t2 := ls[2] + "\n" + t3;
    var t1 := ls[1] + "\n" + t2;
    var t0 := ls[0] + "\n" + t1;
    PrintIs(c);
    FirstLine(ls[4], "");
    FirstLine(ls[3], t4);
    FirstLine(ls[2], t3);
    FirstLine(ls[1], t2);
    FirstLine(ls[0], t1);
    assert Lines("") == [] by { NoLines(); }
    assert [ls[0]] + ([ls[1]] + ([ls[2]] + ([ls[3]] + ([ls[4]] + [])))) == ls;
  }

  lemma NoLines()
    ensures Lines("") == []
  {
  }

  lemma PrintIs(c: Config)
    ensures var ls := PrintedLines(c);
            Print(c) == ls[0] + "\n" + (ls[1] + "\n" + (ls[2] + "\n" + (ls[3] + "\n" + (ls[4] + "\n" + ""))))
  {
    hide Decimal;
    var on := if c.remoteEnabled then "true" else "false";
    var port := Decimal(c.remotePort);
    Spelled();
    Regrouped("config.version=1\n", "remote.enabled=", on, "remote.port=", port, "remote.key=", c.remoteKey,
              "log.level=info\n", "\n");
  }

  lemma Spelled()
    ensures "config.version" + "=" + "1" + "\n" == "config.version=1\n"
    ensures "remote.enabled" + "=" == "remote.enabled="
    ensures "true" + "\n" == "true\n" && "false" + "\n" == "false\n"
    ensures "remote.port" + "=" == "remote.port=" && "remote.key" + "=" == "remote.key="
    ensures "\n" + "remote.key=" == "\nremote.key="
    ensures "log.level" + "=" + "info" + "\n" + "" == "log.level=info\n"
    ensures "\n" + "log.level=info\n" == "\nlog.level=info\n"
  {
  }

  lemma Regrouped(v: string, e: string, on: string, p: string, port: string, k: string, key: string, l: string, n: string)
    ensures v + e + (on + n) + p + port + (n + k) + key + (n + l) == v + (e + on + n + (p + port + n + (k + key + n + l)))
  {
  }

  lemma LinesPlain(c: Config)
    requires ConfigOk(c)
    ensures forall i :: 0 <= i < 5 ==> NoBreaks(PrintedLines(c)[i])
  {
    hide Decimal, IsBreak;
    DecimalPlain(c.remotePort);
    WordsPlain(c);
    PlainLine("config.version", "1");
    PlainLine("remote.enabled", if c.remoteEnabled then "true" else "false");
    PlainLine("remote.port", Decimal(c.remotePort));
    PlainLine("remote.key", c.remoteKey);
    PlainLine("log.level", "info");
  }

  lemma WordsPlain(c: Config)
    requires ConfigOk(c)
    ensures NoBreaks("config.version") && NoBreaks("1") && NoBreaks("remote.enabled") && NoBreaks("true")
    ensures NoBreaks("false") && NoBreaks("remote.port") && NoBreaks("remote.key") && NoBreaks(c.remoteKey)
    ensures NoBreaks("log.level") && NoBreaks("info") && !IsBreak('=')
  {
  }

  lemma PlainLine(name: string, value: string)
    requires NoBreaks(name) && NoBreaks(value) && !IsBreak('=')
    ensures NoBreaks(name + "=" + value)
  {
    hide IsBreak;
  }

  lemma DecimalLength(n: u16)
    ensures |Decimal(n)| <= 5
  {
    if n >= 10 { ShortDecimal(n / 10, 4, 9999); }
  }

  lemma {:induction false} ShortDecimal(n: nat, digits: nat, limit: nat)
    requires n <= limit && (digits, limit) in {(4, 9999), (3, 999), (2, 99), (1, 9)}
    ensures |Decimal(n)| <= digits
  {
    if n >= 10 { ShortDecimal(n / 10, digits - 1, limit / 10); }
  }

  /** Every valid configuration fits the 256-byte buffer. */
  lemma PrintFits(c: Config)
    requires ConfigOk(c)
    ensures 0 < |Print(c)| <= OUTPUT_CAPACITY <= FILE_CAPACITY
  {
    hide Decimal;
    DecimalLength(c.remotePort);
  }

  /** What is printed loads as what was printed. */
  lemma PrintedReloads(c: Config)
    requires ConfigOk(c)
    ensures LoadText(Print(c)) == c.(loadedFromFile := true, valid := true)
  {
    hide Lines, Print, Settings, LoadText, Decimal;
    PrintFits(c);
    PrintedText(c);
    PrintedSettings(c);
    LoadIff(Print(c));
    var ss := [Version, Enabled(c.remoteEnabled), Port(c.remotePort), Key(c.remoteKey), Level];
    FiveFieldsOf(ss);
    AgreementDetermines(LoadText(Print(c)), c.(loadedFromFile := true, valid := true), ss);
  }

  lemma FiveFieldsOf(ss: seq<Setting>)
    requires |ss| == 5 && ss[0].Version? && ss[1].Enabled? && ss[2].Port? && ss[3].Key? && ss[4].Level?
    ensures Complete(ss)
  {
    assert ss[0] in ss && ss[1] in ss && ss[2] in ss && ss[3] in ss && ss[4] in ss;
    assert Fields(ss) == ALL_FIELDS;
  }

  /** What loads as valid may be printed again. */
  lemma LoadedIsOk(text: string)
    requires LoadText(text).valid
    ensures ConfigOk(LoadText(text))
  {
    hide Lines, LoadText, Settings, ReadLine, Distinct, GoodKey;
    LoadIff(text);
    var ls := Lines(text);
    var ss := Settings(ls).value;
    SettingsOfMembers(ls);
    assert PortField in Fields(ss) && KeyField in Fields(ss) && VersionField in Fields(ss);
    var i :| 0 <= i < |ss| && FieldOf(ss[i]) == PortField;
    var j :| 0 <= j < |ss| && FieldOf(ss[j]) == KeyField;
    var k :| 0 <= k < |ss| && FieldOf(ss[k]) == VersionField;
    ReadIsOk(ls[i]);
    ReadIsOk(ls[j]);
    assert Agrees(LoadText(text), ss[i]) && Agrees(LoadText(text), ss[j]) && Agrees(LoadText(text), ss[k]);
  }

  lemma ReadIsOk(line: string)
    requires ReadLine(line).Some?
    ensures ReadLine(line).value.Port? ==> ReadLine(line).value.port != 0
    ensures ReadLine(line).value.Key? ==> GoodKey(ReadLine(line).value.key)
  {
    hide ParseNumber, Separator;
  }
}
