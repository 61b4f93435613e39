/** When a persisted manifest mounts again to the same table. */
module ArfsRemount {
  import opened Words
  import opened Wrappers
  import opened ArfsManifest

  const MANIFEST_CAPACITY := 1024

  /** The first `n` bytes of the zeroed manifest buffer after the table was printed to it. */
  function Image(table: seq<Entry>, n: nat): (s: seq<byte>)
    requires |Print(table)| < MANIFEST_CAPACITY && n <= MANIFEST_CAPACITY
    ensures |s| == n
  {
    (Print(table) + Zeros(MANIFEST_CAPACITY - |Print(table)|))[..n]
  }

  lemma {:induction false} PrintSnoc(front: seq<Entry>, last: Entry)
    ensures Print(front + [last]) == Print(front) + LineOf(last) + [LF]
  {
    hide LineOf;
    if front == [] {
      assert front + [last] == [last] && [last][1..] == [];
    } else {
      assert (front + [last])[1..] == front[1..] + [last];
      PrintSnoc(front[1..], last);
      assert (front + [last])[0] == front[0];
    }
  }

  // ----- the printed text is the shortest text of its table

  lemma {:induction false} DecimalIsShortest(s: seq<byte>, v: u64)
    requires s != [] && ParseDigits(s, 0) == Some(v)
    ensures |Decimal(v)| <= |s|
    decreases |s|
  {
    var k := |s| - 1;
    assert s == s[..k] + [s[k]];
    LastIsDigit(s, 0);
    ParseDigitsAppend(s[..k], s[k], 0);
    if k > 0 {
      DecimalIsShortest(s[..k], ParseDigits(s[..k], 0).value);
    } else {
      assert s[..k] == [];
    }
  }

  lemma {:induction false} LastIsDigit(s: seq<byte>, value: u64)
    requires s != [] && ParseDigits(s, value).Some?
    ensures IsDigit(s[|s| - 1])
  {
    if |s| > 1 {
      LastIsDigit(s[1..], value * 10 + (s[0] - ZERO));
      assert s[1..][|s| - 2] == s[|s| - 1];
    }
  }

  lemma {:induction false} SkipSpacesCost(s: seq<byte>)
    ensures s != [] && s[0] == SPACE ==> |SkipSpaces(s)| < |s|
  {
  }

  lemma {:induction false} TokenEnds(s: seq<byte>)
    ensures TokenLength(s) == |s| || s[TokenLength(s)] == SPACE
  {
    if s != [] && s[0] != SPACE {
      TokenEnds(s[1..]);
    }
  }

  /** A token costs its length, and a space if it is not the first. */
  lemma NextTokenCost(s: seq<byte>)
    ensures var (t, r) := NextToken(s);
            && |t| + |r| <= |s|
            && (r == [] || r[0] == SPACE)
            && (s != [] && s[0] == SPACE ==> |t| + |r| + 1 <= |s|)
  {
    SkipSpacesCost(s);
    TokenEnds(SkipSpaces(s));
  }

  lemma LineIsShortest(line: seq<byte>, previous: seq<byte>)
    requires ParseLine(line, previous).Some?
    ensures |LineOf(ParseLine(line, previous).value)| <= |line|
  {
    hide NextToken, ParseDigits, Decimal;
    NextTokenCost(line[2..]);
    if line[0] == LETTER_F {
      var (path, s1) := NextToken(line[2..]);
      NextTokenCost(s1);
      var (kind, s2) := NextToken(s1);
      NextTokenCost(s2);
      var (lba, s3) := NextToken(s2);
      NextTokenCost(s3);
      var (size, _) := NextToken(s3);
      DecimalIsShortest(lba, ParseDecimal(lba).value);
      DecimalIsShortest(size, ParseDecimal(size).value);
    }
  }

  lemma {:induction false} PrintIsShortest(s: seq<byte>, found: seq<Entry>, slots: Slots)
    requires ParseFrom(s, found, slots).Some?
    ensures var extra := |Print(ParseFrom(s, found, slots).value)| - |Print(found)|;
            extra <= |s| + 1 && (s == [] || IsLineEnd(s[0]) ==> extra <= |s|)
    decreases |s|
  {
    hide LineOf, ParseLine, Print;
    if s == [] || s[0] == NUL {
    } else if s[0] == LF || s[0] == CR {
      PrintIsShortest(s[1..], found, slots);
    } else {
      var n := LineLength(s);
      var line := s[..n];
      LineIsShortest(line, slots[|found|].name);
      var e := ParseLine(line, slots[|found|].name).value;
      PrintSnoc(found, e);
      LineStops(s);
      PrintIsShortest(s[n..], found + [e], slots);
    }
  }

  lemma {:induction false} LineStops(s: seq<byte>)
    ensures LineLength(s) == |s| || IsLineEnd(s[LineLength(s)])
  {
    if s != [] && !IsLineEnd(s[0]) {
      LineStops(s[1..]);
    }
  }

  // ----- the round trip

  lemma WholeText(table: seq<Entry>, n: nat, slots: Slots)
    requires WellFormedTable(table) && |Print(table)| <= n <= MANIFEST_CAPACITY
    requires |Print(table)| < MANIFEST_CAPACITY
    ensures ParseFrom(Image(table, n), [], slots) == Some(table)
  {
    hide Print, WellFormed;
    var z := Zeros(n - |Print(table)|);
    assert Image(table, n) == Print(table) + z;
    ParsePrinted(table, z, [], slots);
    assert [] + table == table;
  }

  lemma AllButNewline(table: seq<Entry>, n: nat, slots: Slots)
    requires WellFormedTable(table) && table != []
    requires |Print(table)| == n + 1 < MANIFEST_CAPACITY
    ensures ParseFrom(Image(table, n), [], slots) == Some(table)
  {
    hide Print, WellFormed, LineOf;
    var k := |table| - 1;
    var front, last := table[..k], table[k];
    assert table == front + [last];
    assert last in table && forall e :: e in front ==> e in table;
    PrintSnoc(front, last);
    assert Image(table, n) == Print(front) + (LineOf(last) + []);
    ParsePrinted(front, LineOf(last) + [], [], slots);
    assert [] + front == front;
    ParseOneLine(last, [], front, slots);
  }

  /** The persist/mount round trip, with its exact condition: a non-empty table of
      well-formed entries that was printed mounts again from the `n` manifest
      bytes on disk, to the same entries in the same order, if and only if at most
      the final newline was cut off. */
  lemma RemountIff(table: seq<Entry>, n: nat, slots: Slots)
    requires WellFormedTable(table) && table != []
    requires |Print(table)| < MANIFEST_CAPACITY && n <= MANIFEST_CAPACITY
    ensures ParseManifest(Image(table, n), slots) == Some(table) <==> |Print(table)| <= n + 1
  {
    hide Print, WellFormed, ParseFrom;
    if |Print(table)| <= n {
      WholeText(table, n, slots);
    } else if |Print(table)| == n + 1 {
      AllButNewline(table, n, slots);
    } else if ParseFrom(Image(table, n), [], slots) == Some(table) {
      PrintIsShortest(Image(table, n), [], slots);
      PrintEmpty();
    }
  }

  lemma PrintEmpty()
    ensures Print([]) == []
  {
  }

  /** A table without entries is printed but never mounts. */
  lemma EmptyDoesNotMount(n: nat, slots: Slots)
    requires n <= MANIFEST_CAPACITY
    ensures Print([]) == [] && ParseManifest(Image([], n), slots) == None
  {
    WholeText([], n, slots);
  }
}
