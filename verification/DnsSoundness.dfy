/** The converse of `DnsCodec.ResponseMeaning`. */
module DnsSoundness {
  import opened Words
  import opened Wrappers
  import opened Checksums
  import opened DnsCodec

  // Whatever bytes arrive, an address is returned only if they begin with a well-formed
  // message that says so.

  /** The first part of a name: its end, or a label and the rest. */
  lemma FirstPart(m: seq<byte>, at: nat, passed: nat)
    requires SkipName(m, at, passed).Some?
    ensures var end := SkipName(m, at, passed).value;
            && at < |m| && at < end <= |m|
            && (m[at] == 0 ==> end == at + 1)
            && (m[at] >= 192 ==> end == at + 2)
            && (0 < m[at] < 192 ==>
                  && m[at] <= 63 && passed < 127 && at + 1 + m[at] <= |m|
                  && SkipName(m, at + 1 + m[at], passed + 1) == Some(end))
    decreases |m| - at
  {
    if at < |m| && 0 < m[at] <= 63 && SkipName(m, at + 1 + m[at], passed + 1).Some? {
      FirstPart(m, at + 1 + m[at], passed + 1);
    }
  }

  /** A name that is skipped is a printed name. */
  lemma {:induction false} SkippedName(m: seq<byte>, at: nat, passed: nat) returns (n: Name)
    requires SkipName(m, at, passed).Some?
    ensures n.labels != [] ==> passed + |n.labels| <= 127
    ensures NameOk(n) && at <= SkipName(m, at, passed).value <= |m|
    ensures m[at..SkipName(m, at, passed).value] == PrintName(n)
    decreases |m| - at
  {
    hide Get16, Big16, NameOk, PrintName, SkipName;
    FirstPart(m, at, passed);
    var part := m[at];
    var end := SkipName(m, at, passed).value;
    if part == 0 {
      n := Name([], None);
      OnlyAnEnd(None);
      assert m[at..end] == [0];
    } else if part >= 192 {
      n := Name([], Some(Get16(m, at)));
      PointerBytes(m, at);
      OnlyAnEnd(n.pointer);
    } else {
      var rest := SkippedName(m, at + 1 + part, passed + 1);
      var l := m[at + 1..at + 1 + part];
      n := Name([l] + rest.labels, rest.pointer);
      LabelInFront(l, rest);
      Pieces(m, at, at + 1, at + 1 + part, end);
    }
  }

  lemma OnlyAnEnd(pointer: Option<u16>)
    requires pointer.Some? ==> pointer.value >= 0xc000
    ensures NameOk(Name([], pointer)) && PrintName(Name([], pointer)) == PrintEnd(pointer)
  {
  }

  lemma PointerBytes(m: seq<byte>, at: nat)
    requires at + 2 <= |m| && m[at] >= 192
    ensures m[at..at + 2] == Big16(Get16(m, at)) && Get16(m, at) >= 0xc000
  {
  }

  lemma LabelInFront(l: seq<byte>, rest: Name)
    requires NameOk(rest) && 1 <= |l| <= 63 && |rest.labels| < 127
    ensures NameOk(Name([l] + rest.labels, rest.pointer))
    ensures PrintName(Name([l] + rest.labels, rest.pointer)) == [|l|] + l + PrintName(rest)
  {
    PrintLabelsStep(l, rest.labels);
  }

  lemma {:induction false} SkippedQuestions(m: seq<byte>, at: nat, count: nat) returns (qs: seq<Question>)
    requires at <= |m| && SkipQuestions(m, at, count).Some?
    ensures |qs| == count && forall q :: q in qs ==> NameOk(q.name)
    ensures at <= SkipQuestions(m, at, count).value <= |m|
    ensures m[at..SkipQuestions(m, at, count).value] == PrintQuestions(qs)
    decreases count
  {
    hide NameOk, PrintName, SkipName, Get16, Big16;
    if count == 0 {
      qs := [];
    } else {
      var n := SkippedName(m, at, 0);
      var mid := SkipName(m, at, 0).value;
      var end := SkipQuestions(m, at, count).value;
      var rest := SkippedQuestions(m, mid + 4, count - 1);
      var q := Question(n, Get16(m, mid), Get16(m, mid + 2));
      qs := [q] + rest;
      assert qs[1..] == rest;
      FourBytes(m, mid);
      Pieces(m, at, mid, mid + 4, end);
    }
  }

  lemma FourBytes(m: seq<byte>, at: nat)
    requires at + 4 <= |m|
    ensures m[at..at + 4] == Big16(Get16(m, at)) + Big16(Get16(m, at + 2))
  {
  }

  /** The record whose name is `n` and whose fields start at `at`. */
  function RecordAt(m: seq<byte>, n: Name, at: nat): Record
    requires at + 10 <= |m| && at + 10 + Get16(m, at + 8) <= |m|
  {
    Record(n, Get16(m, at), Get16(m, at + 2), m[at + 4..at + 8], m[at + 10..at + 10 + Get16(m, at + 8)])
  }

  lemma FieldsOfRecord(m: seq<byte>, n: Name, at: nat)
    requires NameOk(n) && at + 10 <= |m| && at + 10 + Get16(m, at + 8) <= |m|
    ensures var r := RecordAt(m, n, at);
            && RecordOk(r) && m[at..at + 10] == PrintFields(r)
            && (IsAddress(r) <==> Get16(m, at) == 1 && Get16(m, at + 2) == 1 && Get16(m, at + 8) == 4)
            && (IsAddress(r) ==> Address(r.data, 0) == Address(m, at + 10))
  {
    hide NameOk;
    var r := RecordAt(m, n, at);
    FourBytes(m, at);
    assert m[at + 8..at + 10] == Big16(Get16(m, at + 8));
    assert m[at..at + 10] == m[at..at + 4] + m[at + 4..at + 8] + m[at + 8..at + 10];
  }

  lemma Pieces(m: seq<byte>, a: nat, b: nat, c: nat, d: nat)
    requires a <= b <= c <= d <= |m|
    ensures m[a..d] == m[a..b] + m[b..c] + m[c..d]
  {
  }

  /** One step of the search, read off the bytes. */
  lemma SearchStep(m: seq<byte>, at: nat, count: nat) returns (r: Record, next: nat)
    requires at <= |m| && FindAddress(m, at, count).Ok?
    ensures count > 0 && RecordOk(r) && at <= next <= |m| && m[at..next] == PrintRecord(r)
    ensures FindAddress(m, at, count) == if IsAddress(r) then Ok(Address(r.data, 0)) else FindAddress(m, next, count - 1)
  {
    hide NameOk, PrintName, PrintFields, SkipName, Address, RecordOk, IsAddress, Get16;
    var n := SkippedName(m, at, 0);
    var mid := SkipName(m, at, 0).value;
    r := RecordAt(m, n, mid);
    next := mid + 10 + |r.data|;
    FieldsOfRecord(m, n, mid);
    Pieces(m, at, mid, mid + 10, next);
  }

  /** The records up to and with the one that answers. */
  lemma {:induction false} FoundRecords(m: seq<byte>, at: nat, count: nat) returns (rs: seq<Record>, end: nat)
    requires at <= |m| && FindAddress(m, at, count).Ok?
    ensures 0 < |rs| <= count && (forall r :: r in rs ==> RecordOk(r))
    ensures at <= end <= |m| && m[at..end] == PrintRecords(rs)
    ensures FirstAddress(rs) == FindAddress(m, at, count)
    decreases count
  {
    hide FindAddress, PrintRecord, Address, RecordOk, IsAddress, Get16;
    var r, next := SearchStep(m, at, count);
    if IsAddress(r) {
      OneRecord(r);
      return [r], next;
    }
    var rest;
    rest, end := FoundRecords(m, next, count - 1);
    rs := [r] + rest;
    assert rs[1..] == rest;
    Pieces(m, at, next, end, end);
  }

  lemma OneRecord(r: Record)
    requires RecordOk(r)
    ensures (forall x :: x in [r] ==> RecordOk(x)) && PrintRecords([r]) == PrintRecord(r)
  {
    hide RecordOk, PrintRecord;
    assert [r][1..] == [];
  }

  /** If the parser returns an address, the bytes start with a well-formed message of
      the asked identifier, with as many questions as its header says, whose answers so
      far end in the IN A record that was returned and contain no earlier one. */
  lemma AddressIsInMessage(m: seq<byte>, id: u16) returns (qs: seq<Question>, rs: seq<Record>, rest: seq<byte>)
    requires ParseResponse(m, id).Ok?
    ensures (forall q :: q in qs ==> NameOk(q.name)) && forall r :: r in rs ==> RecordOk(r)
    ensures |m| >= 12 && m == m[..12] + PrintQuestions(qs) + PrintRecords(rs) + rest
    ensures Get16(m, 0) == id && Get16(m, 2) >= 0x8000 && Get16(m, 2) % 16 == 0
    ensures |qs| == Get16(m, 4) && |rs| <= Get16(m, 6)
    ensures FirstAddress(rs) == ParseResponse(m, id)
  {
    hide SkipQuestions, FindAddress, FirstAddress, PrintQuestions, PrintRecords, Get16;
    qs := SkippedQuestions(m, 12, Get16(m, 4));
    var mid := SkipQuestions(m, 12, Get16(m, 4)).value;
    var end;
    rs, end := FoundRecords(m, mid, Get16(m, 6));
    rest := m[end..];
    assert m == m[..12] + m[12..mid] + m[mid..end] + m[end..];
  }
}
