/** The text manifest of kernel/arfs.c: printer, parser, and their round trip. */
module ArfsManifest {
  import opened Words
  import opened Wrappers

  const NUL: byte := 0
  const LF: byte := 10
  const CR: byte := 13
  const SPACE: byte := 32
  const SLASH: byte := 47
  const ZERO: byte := 48
  const LETTER_D: byte := 68
  const LETTER_F: byte := 70
  const TEXT: seq<byte> := [116, 101, 120, 116]
  const BINARY: seq<byte> := [98, 105, 110, 97, 114, 121]

  const MAX_ENTRIES := 24
  const MAX_PATH := 64
  const MAX_NAME := 32

  datatype Kind = Directory | File
  datatype FileType = Text | Binary
  datatype Entry = Entry(kind: Kind, fileType: FileType, path: seq<byte>, name: seq<byte>,
                         lba: u64, size: u64)

  /** The slots of the entry table; the names in unused slots survive until the
      slot gets a name of its own. */
  type Slots = s: seq<Entry> | |s| == 24 witness seq(24, _ => Entry(Directory, Binary, [], [], 0, 0))

  // ----- numbers

  function Decimal(n: nat): (s: seq<byte>)
    ensures |s| >= 1 && forall i :: 0 <= i < |s| ==> IsDigit(s[i])
  {
    if n < 10 then [ZERO + n] else Decimal(n / 10) + [ZERO + n % 10]
  }

  predicate IsDigit(c: byte) {
    ZERO <= c <= ZERO + 9
  }

  /** Digit by digit from the left, refusing what does not fit 64 bits. */
  function ParseDigits(s: seq<byte>, value: u64): Option<u64> {
    if s == [] then Some(value)
    else if !IsDigit(s[0]) then None
    else
      var digit := s[0] - ZERO;
      if value > (M64 - 1 - digit) / 10 then None
      else ParseDigits(s[1..], value * 10 + digit)
  }

  function ParseDecimal(s: seq<byte>): Option<u64> {
    if s == [] then None else ParseDigits(s, 0)
  }

  // ----- printing

  function TypeText(t: FileType): seq<byte> {
    if t == Text then TEXT else BINARY
  }

  /** The line of an entry without its newline. */
  function LineOf(e: Entry): seq<byte> {
    if e.kind == Directory then [LETTER_D, SPACE] + e.path
    else [LETTER_F, SPACE] + e.path + [SPACE] + TypeText(e.fileType) + [SPACE]
         + Decimal(e.lba) + [SPACE] + Decimal(e.size)
  }

  function Print(table: seq<Entry>): seq<byte> {
    if table == [] then [] else LineOf(table[0]) + [LF] + Print(table[1..])
  }

  // ----- parsing

  function SkipSpaces(s: seq<byte>): (r: seq<byte>)
    ensures |r| <= |s|
  {
    if s != [] && s[0] == SPACE then SkipSpaces(s[1..]) else s
  }

  function TokenLength(s: seq<byte>): (n: nat)
    ensures n <= |s|
  {
    if s == [] || s[0] == SPACE then 0 else 1 + TokenLength(s[1..])
  }

  /** The next token and what follows it. */
  function NextToken(s: seq<byte>): (seq<byte>, seq<byte>) {
    var t := SkipSpaces(s);
    (t[..TokenLength(t)], t[TokenLength(t)..])
  }

  function LastSlash(path: seq<byte>): (i: nat)
    ensures path != [] ==> i < |path|
    ensures path == [] ==> i == 0
  {
    if path == [] then 0
    else if path[|path| - 1] == SLASH then |path| - 1
    else LastSlash(path[..|path| - 1])
  }

  /** The last component of a path, or "/" when nothing follows the last slash. */
  function BaseName(path: seq<byte>): seq<byte> {
    if LastSlash(path) + 1 >= |path| then [SLASH] else path[LastSlash(path) + 1..]
  }

  /** A name that does not fit its field leaves the previous name there. */
  function NameFor(path: seq<byte>, previous: seq<byte>): seq<byte> {
    if |BaseName(path)| < MAX_NAME then BaseName(path) else previous
  }

  function ParseLine(line: seq<byte>, previous: seq<byte>): Option<Entry> {
    if |line| >= 2 && line[0] == LETTER_D && line[1] == SPACE then
      var (path, _) := NextToken(line[2..]);
      if |path| >= MAX_PATH then None
      else Some(Entry(Directory, Binary, path, NameFor(path, previous), 0, 0))
    else if |line| >= 2 && line[0] == LETTER_F && line[1] == SPACE then
      ParseFile(line[2..], previous)
    else None
  }

  function ParseFile(s: seq<byte>, previous: seq<byte>): Option<Entry> {
    var (path, s1) := NextToken(s);
    var (kind, s2) := NextToken(s1);
    var (lba, s3) := NextToken(s2);
    var (size, _) := NextToken(s3);
    if ParseDecimal(lba).None? || ParseDecimal(size).None? then None
    else if kind != TEXT && kind != BINARY then None
    else if |path| >= MAX_PATH then None
    else Some(Entry(File, if kind == TEXT then Text else Binary, path, NameFor(path, previous),
                    ParseDecimal(lba).value, ParseDecimal(size).value))
  }

  predicate IsLineEnd(c: byte) {
    c == LF || c == CR || c == NUL
  }

  function LineLength(s: seq<byte>): (n: nat)
    ensures n <= |s|
    ensures s != [] && !IsLineEnd(s[0]) ==> n > 0
  {
    if s == [] || IsLineEnd(s[0]) then 0 else 1 + LineLength(s[1..])
  }

  /** The entries of the text `s`, after `found`; the old names are in `slots`. */
  function ParseFrom(s: seq<byte>, found: seq<Entry>, slots: Slots): Option<seq<Entry>>
    decreases |s|
  {
    if s == [] || s[0] == NUL then Some(found)
    else if s[0] == LF || s[0] == CR then ParseFrom(s[1..], found, slots)
    else if |found| >= MAX_ENTRIES then
      // the line is still looked at, but there is no slot for its entry
      None
    else
      match ParseLine(s[..LineLength(s)], slots[|found|].name)
      case None => None
      case Some(e) => ParseFrom(s[LineLength(s)..], found + [e], slots)
  }

  /** A manifest without entries does not mount. */
  function ParseManifest(s: seq<byte>, slots: Slots): Option<seq<Entry>> {
    var r := ParseFrom(s, [], slots);
    if r == Some([]) then None else r
  }

  // ----- what the tables of a running system look like

  predicate IsPlain(c: byte) {
    c != SPACE && !IsLineEnd(c)
  }

  predicate WellFormed(e: Entry) {
    && 1 <= |e.path| < MAX_PATH && (forall i :: 0 <= i < |e.path| ==> IsPlain(e.path[i]))
    && e.name == BaseName(e.path) && |e.name| < MAX_NAME
    && (e.kind == Directory ==> e.fileType == Binary && e.lba == 0 && e.size == 0)
  }

  predicate WellFormedTable(table: seq<Entry>) {
    |table| <= MAX_ENTRIES && forall e :: e in table ==> WellFormed(e)
  }

  // ----- numbers round-trip

  lemma {:induction false} ParseDigitsAppend(s: seq<byte>, d: byte, value: u64)
    requires IsDigit(d)
    ensures ParseDigits(s + [d], value) ==
            match ParseDigits(s, value)
            case None => None
            case Some(v) => if v > (M64 - 1 - (d - ZERO)) / 10 then None else Some(v * 10 + (d - ZERO))
  {
    if s == [] {
      assert s + [d] == [d] && [d][1..] == [];
    } else {
      assert (s + [d])[1..] == s[1..] + [d] && (s + [d])[0] == s[0];
      if IsDigit(s[0]) && value <= (M64 - 1 - (s[0] - ZERO)) / 10 {
        ParseDigitsAppend(s[1..], d, value * 10 + (s[0] - ZERO));
      }
    }
  }

  lemma {:induction false} DecimalRoundTrip(n: u64)
    ensures ParseDecimal(Decimal(n)) == Some(n)
  {
    if n < 10 {
      assert Decimal(n) == [ZERO + n] && [ZERO + n][1..] == [];
      assert ParseDigits([], n) == Some(n);
    } else {
      DecimalRoundTrip(n / 10);
      ParseDigitsAppend(Decimal(n / 10), ZERO + n % 10, 0);
    }
  }

  predicate AllDigits(s: seq<byte>) {
    forall i :: 0 <= i < |s| ==> IsDigit(s[i])
  }

  /** The number that decimal digits stand for. */
  function Value(s: seq<byte>): nat
    requires AllDigits(s)
  {
    if s == [] then 0 else Value(s[..|s| - 1]) * 10 + (s[|s| - 1] - ZERO)
  }

  lemma {:induction false} OtherByte(s: seq<byte>, value: u64)
    requires s != [] && !IsDigit(s[|s| - 1])
    ensures ParseDigits(s, value) == None
    decreases |s|
  {
    if |s| > 1 && IsDigit(s[0]) && value <= (M64 - 1 - (s[0] - ZERO)) / 10 {
      OtherByte(s[1..], value * 10 + (s[0] - ZERO));
    }
  }

  lemma {:induction false} DigitsMeaning(s: seq<byte>)
    ensures ParseDigits(s, 0) == if AllDigits(s) && Value(s) < M64 then Some(Value(s)) else None
    decreases |s|
  {
    if s != [] {
      var k := |s| - 1;
      assert s == s[..k] + [s[k]];
      DigitsMeaning(s[..k]);
      if IsDigit(s[k]) {
        ParseDigitsAppend(s[..k], s[k], 0);
      } else {
        OtherByte(s, 0);
      }
    }
  }

  /** A number of the manifest is read exactly when it is written in decimal digits and fits
      64 bits, and then as what it stands for. */
  lemma DecimalMeaning(s: seq<byte>)
    ensures ParseDecimal(s) == if s != [] && AllDigits(s) && Value(s) < M64 then Some(Value(s)) else None
  {
    DigitsMeaning(s);
  }

  // ----- tokens round-trip

  predicate IsWord(s: seq<byte>) {
    s != [] && forall i :: 0 <= i < |s| ==> s[i] != SPACE
  }

  lemma {:induction false} TokenLengthOf(w: seq<byte>, rest: seq<byte>)
    requires forall i :: 0 <= i < |w| ==> w[i] != SPACE
    requires rest == [] || rest[0] == SPACE
    ensures TokenLength(w + rest) == |w|
  {
    if w == [] {
      assert w + rest == rest;
    } else {
      assert (w + rest)[1..] == w[1..] + rest;
      TokenLengthOf(w[1..], rest);
    }
  }

  lemma FirstToken(w: seq<byte>, rest: seq<byte>)
    requires IsWord(w) && (rest == [] || rest[0] == SPACE)
    ensures NextToken(w + rest) == (w, rest)
  {
    TokenLengthOf(w, rest);
    assert (w + rest)[0] == w[0];
    assert SkipSpaces(w + rest) == w + rest;
    assert (w + rest)[..|w|] == w && (w + rest)[|w|..] == rest;
  }

  lemma SpacedToken(w: seq<byte>, rest: seq<byte>)
    requires IsWord(w) && (rest == [] || rest[0] == SPACE)
    ensures NextToken([SPACE] + w + rest) == (w, rest)
  {
    assert ([SPACE] + w + rest)[1..] == w + rest;
    assert ([SPACE] + w + rest)[0] == SPACE;
    assert SkipSpaces([SPACE] + w + rest) == SkipSpaces(w + rest);
    FirstToken(w, rest);
  }

  lemma DecimalIsWord(n: nat)
    ensures IsWord(Decimal(n))
  {
  }

  lemma LineRoundTrip(e: Entry, previous: seq<byte>)
    requires WellFormed(e)
    ensures ParseLine(LineOf(e), previous) == Some(e)
  {
    hide Decimal, ParseFile, NextToken;
    var line := LineOf(e);
    assert line[0] == if e.kind == Directory then LETTER_D else LETTER_F;
    assert line[1] == SPACE;
    if e.kind == Directory {
      assert line[2..] == e.path;
      assert e.path + [] == e.path;
      FirstToken(e.path, []);
    } else {
      FileRoundTrip(e, previous);
      FileLine(e.path, TypeText(e.fileType), Decimal(e.lba), Decimal(e.size));
    }
  }

  lemma FileLine(p: seq<byte>, a: seq<byte>, b: seq<byte>, c: seq<byte>)
    ensures ([LETTER_F, SPACE] + p + [SPACE] + a + [SPACE] + b + [SPACE] + c)[2..] ==
            p + ([SPACE] + a + ([SPACE] + b + ([SPACE] + c + [])))
  {
    var rest := [SPACE] + a + ([SPACE] + b + ([SPACE] + c + []));
    assert [LETTER_F, SPACE] + p + [SPACE] + a + [SPACE] + b + [SPACE] + c ==
           [LETTER_F, SPACE] + (p + rest);
  }

  lemma FileRoundTrip(e: Entry, previous: seq<byte>)
    requires WellFormed(e) && e.kind == File
    ensures var a, b, c := TypeText(e.fileType), Decimal(e.lba), Decimal(e.size);
            ParseFile(e.path + ([SPACE] + a + ([SPACE] + b + ([SPACE] + c + []))), previous) == Some(e)
  {
    hide Decimal, ParseDecimal;
    var a, b, c := TypeText(e.fileType), Decimal(e.lba), Decimal(e.size);
    DecimalIsWord(e.lba);
    DecimalIsWord(e.size);
    DecimalRoundTrip(e.lba);
    DecimalRoundTrip(e.size);
    SpacedToken(c, []);
    SpacedToken(b, [SPACE] + c + []);
    SpacedToken(a, [SPACE] + b + ([SPACE] + c + []));
    FirstToken(e.path, [SPACE] + a + ([SPACE] + b + ([SPACE] + c + [])));
  }

  // ----- lines round-trip

  lemma LineIsPlain(e: Entry)
    requires WellFormed(e)
    ensures forall i :: 0 <= i < |LineOf(e)| ==> !IsLineEnd(LineOf(e)[i])
    ensures |LineOf(e)| >= 3
  {
  }

  lemma {:induction false} LineLengthOf(line: seq<byte>, rest: seq<byte>)
    requires forall i :: 0 <= i < |line| ==> !IsLineEnd(line[i])
    requires rest == [] || IsLineEnd(rest[0])
    ensures LineLength(line + rest) == |line|
  {
    if line == [] {
      assert line + rest == rest;
    } else {
      assert (line + rest)[1..] == line[1..] + rest;
      LineLengthOf(line[1..], rest);
    }
  }

  lemma ParseOneLine(e: Entry, rest: seq<byte>, found: seq<Entry>, slots: Slots)
    requires WellFormed(e) && |found| < MAX_ENTRIES && (rest == [] || IsLineEnd(rest[0]))
    ensures ParseFrom(LineOf(e) + rest, found, slots) == ParseFrom(rest, found + [e], slots)
  {
    hide LineOf, ParseLine, WellFormed;
    LineIsPlain(e);
    LineLengthOf(LineOf(e), rest);
    var s := LineOf(e) + rest;
    assert s[0] == LineOf(e)[0];
    assert s[..|LineOf(e)|] == LineOf(e) && s[|LineOf(e)|..] == rest;
    LineRoundTrip(e, slots[|found|].name);
  }

  /** A printed table is read back, whatever text of ended lines follows it. */
  lemma {:induction false} ParsePrinted(table: seq<Entry>, rest: seq<byte>, found: seq<Entry>, slots: Slots)
    requires forall e :: e in table ==> WellFormed(e)
    requires |found| + |table| <= MAX_ENTRIES
    ensures ParseFrom(Print(table) + rest, found, slots) == ParseFrom(rest, found + table, slots)
    decreases |table|
  {
    hide LineOf, ParseLine, WellFormed;
    if table == [] {
      assert Print(table) + rest == rest && found + table == found;
    } else {
      var e := table[0];
      assert e in table;
      var more := Print(table[1..]) + rest;
      assert Print(table) + rest == LineOf(e) + ([LF] + more);
      ParseOneLine(e, [LF] + more, found, slots);
      assert ([LF] + more)[1..] == more;
      assert forall x :: x in table[1..] ==> x in table;
      ParsePrinted(table[1..], rest, found + [e], slots);
      assert found + [e] + table[1..] == found + table;
    }
  }
}
