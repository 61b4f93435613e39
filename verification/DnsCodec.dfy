/** libs/libnet/dns.c: the A query it builds and the responses it reads (sections 3.1
    and 4.1 of RFC 1035). */
module DnsCodec {
  import opened Words
  import opened Wrappers
  import opened Checksums

  datatype Outcome<+T> = Ok(value: T) | Invalid | TooLarge | NotFound | ServerFailure

  // ----- the query

  predicate IsHostChar(c: char) {
    'a' <= c <= 'z' || 'A' <= c <= 'Z' || '0' <= c <= '9' || c == '-'
  }

  /** Where the first label of `host` ends. */
  function LabelEnd(host: string): (i: nat)
    ensures i <= |host| && (i < |host| ==> host[i] == '.') && forall k :: 0 <= k < i ==> host[k] != '.'
  {
    if host == "" || host[0] == '.' then 0 else 1 + LabelEnd(host[1..])
  }

  function Labels(host: string): seq<string>
    decreases |host|
  {
    var i := LabelEnd(host);
    if i == |host| then [host] else [host[..i]] + Labels(host[i + 1..])
  }

  predicate GoodLabel(l: string) {
    1 <= |l| <= 63 && forall c :: c in l ==> IsHostChar(c)
  }

  predicate GoodHost(host: string) {
    forall l :: l in Labels(host) ==> GoodLabel(l)
  }

  function Octet(c: char): byte
    requires IsHostChar(c)
  {
    c as int
  }

  function LabelBytes(l: string): (r: seq<byte>)
    requires forall c :: c in l ==> IsHostChar(c)
    ensures |r| == |l|
  {
    seq(|l|, i requires 0 <= i < |l| => Octet(l[i]))
  }

  /** The labels as the loop emits them after `used` bytes: one octet of length and the
      characters, each label checked before it is written. */
  function EncodeLabels(host: string, used: nat, capacity: nat): Outcome<seq<byte>>
    decreases |host|
  {
    var i := LabelEnd(host);
    var l := host[..i];
    if exists c :: c in l && !IsHostChar(c) then Invalid
    else if i > 63 then Invalid
    else if i == 0 || used + 1 + i + 5 > capacity then TooLarge
    else
      var bytes := [i] + LabelBytes(l);
      if i == |host| then Ok(bytes)
      else match EncodeLabels(host[i + 1..], used + 1 + i, capacity)
        case Ok(rest) => Ok(bytes + rest)
        case Invalid => Invalid
        case TooLarge => TooLarge
        case NotFound => NotFound
        case ServerFailure => ServerFailure
  }

  function QueryHeader(id: u16): seq<byte> {
    Big16(id) + Big16(0x0100) + Big16(1) + [0, 0, 0, 0, 0, 0]
  }

  function BuildQuery(host: string, id: u16, capacity: nat): Outcome<seq<byte>> {
    if host == "" || capacity < 17 then Invalid
    else match EncodeLabels(host, 12, capacity)
      case Ok(name) => Ok(QueryHeader(id) + name + [0] + Big16(1) + Big16(1))
      case Invalid => Invalid
      case TooLarge => TooLarge
      case NotFound => NotFound
      case ServerFailure => ServerFailure
  }

  // ----- reading names

  /** `skip_name`, with `labels` labels already passed. */
  function SkipName(m: seq<byte>, position: nat, labels: nat): Option<nat>
    decreases |m| - position
  {
    if position >= |m| then None
    else
      var part := m[position];
      if part == 0 then Some(position + 1)
      else if part >= 192 then if position + 1 >= |m| then None else Some(position + 2)
      else if part > 63 || position + 1 + part > |m| || labels + 1 > 127 then None
      else SkipName(m, position + 1 + part, labels + 1)
  }

  function SkipQuestions(m: seq<byte>, offset: nat, count: nat): Option<nat>
    decreases count
  {
    if count == 0 then Some(offset)
    else match SkipName(m, offset, 0)
      case None => None
      case Some(end) => if end + 4 > |m| then None else SkipQuestions(m, end + 4, count - 1)
  }

  function Address(m: seq<byte>, at: nat): u32
    requires at + 4 <= |m|
  {
    Get16(m, at) as int * 0x1_0000 + Get16(m, at + 2) as int
  }

  function FindAddress(m: seq<byte>, offset: nat, count: nat): Outcome<u32>
    decreases count
  {
    if count == 0 then NotFound
    else match SkipName(m, offset, 0)
      case None => Invalid
      case Some(end) =>
        if end + 10 > |m| then Invalid
        else
          var length := Get16(m, end + 8);
          if end + 10 + length > |m| then Invalid
          else if Get16(m, end) == 1 && Get16(m, end + 2) == 1 && length == 4 then Ok(Address(m, end + 10))
          else FindAddress(m, end + 10 + length, count - 1)
  }

  function ParseResponse(m: seq<byte>, id: u16): Outcome<u32> {
    if |m| < 12 || Get16(m, 0) != id || Get16(m, 2) < 0x8000 then Invalid
    else
      var code := Get16(m, 2) % 16;
      if code != 0 then if code == 3 then NotFound else ServerFailure
      else match SkipQuestions(m, 12, Get16(m, 4))
        case None => Invalid
        case Some(offset) => FindAddress(m, offset, Get16(m, 6))
  }

  // ----- building: when it succeeds and what it means

  /** The labels of a host are its first label and those of the rest. */
  lemma LabelsSplit(host: string)
    ensures var i := LabelEnd(host);
            Labels(host) == [host[..i]] + if i < |host| then Labels(host[i + 1..]) else []
  {
    hide LabelEnd;
    var i := LabelEnd(host);
    if i == |host| {
      assert host[..i] == host;
    }
  }

  lemma GoodHostIff(host: string)
    ensures var i := LabelEnd(host);
            GoodHost(host) <==> GoodLabel(host[..i]) && (i < |host| ==> GoodHost(host[i + 1..]))
  {
    hide GoodLabel, Labels, LabelEnd;
    LabelsSplit(host);
    var i := LabelEnd(host);
    var rest := if i < |host| then Labels(host[i + 1..]) else [];
    assert forall x :: x in Labels(host) <==> x == host[..i] || x in rest;
  }

  lemma {:induction false} EncodeIff(host: string, used: nat, capacity: nat)
    ensures EncodeLabels(host, used, capacity).Ok? <==> GoodHost(host) && used + |host| + 6 <= capacity
    ensures EncodeLabels(host, used, capacity).Ok? ==> |EncodeLabels(host, used, capacity).value| == |host| + 1
    decreases |host|
  {
    var i := LabelEnd(host);
    GoodHostIff(host);
    hide GoodHost, LabelEnd, LabelBytes;
    if i < |host| { EncodeIff(host[i + 1..], used + 1 + i, capacity); }
  }

  /** A query is built exactly for hosts of valid labels that fit. */
  lemma QueryIff(host: string, id: u16, capacity: nat)
    ensures BuildQuery(host, id, capacity).Ok? <==> GoodHost(host) && |host| + 18 <= capacity
    ensures BuildQuery(host, id, capacity).Ok? ==> |BuildQuery(host, id, capacity).value| == |host| + 18
  {
    hide EncodeLabels;
    if host == "" {
      assert Labels(host) == [""];
      assert "" in Labels(host) && !GoodLabel("");
    } else {
      EncodeIff(host, 12, capacity);
    }
  }

  // ----- messages

  /** A name is labels and an end: a zero octet or a two-octet pointer. */
  datatype Name = Name(labels: seq<seq<byte>>, pointer: Option<u16>)

  predicate NameOk(n: Name) {
    && |n.labels| <= 127 && (forall l :: l in n.labels ==> 1 <= |l| <= 63)
    && (n.pointer.Some? ==> n.pointer.value >= 0xc000)
  }

  function PrintLabels(labels: seq<seq<byte>>): seq<byte>
    requires forall l :: l in labels ==> 1 <= |l| <= 63
  {
    if labels == [] then [] else [|labels[0]|] + labels[0] + PrintLabels(labels[1..])
  }

  function PrintEnd(pointer: Option<u16>): seq<byte> {
    match pointer
    case None => [0]
    case Some(p) => Big16(p)
  }

  function PrintName(n: Name): seq<byte>
    requires NameOk(n)
  {
    PrintLabels(n.labels) + PrintEnd(n.pointer)
  }

  lemma SkipEnd(before: seq<byte>, pointer: Option<u16>, after: seq<byte>, passed: nat)
    requires pointer.Some? ==> pointer.value >= 0xc000
    ensures SkipName(before + PrintEnd(pointer) + after, |before|, passed) == Some(|before + PrintEnd(pointer)|)
  {
    assert (before + PrintEnd(pointer) + after)[|before|] == PrintEnd(pointer)[0];
  }

  lemma SkipLabel(before: seq<byte>, l: seq<byte>, after: seq<byte>, passed: nat)
    requires 1 <= |l| <= 63 && passed < 127
    ensures var m := before + ([|l|] + l) + after;
            SkipName(m, |before|, passed) == SkipName(m, |before| + 1 + |l|, passed + 1)
  {
    assert (before + ([|l|] + l) + after)[|before|] == |l|;
  }

  /** Skipping a printed name, plain or compressed, lands right behind it. */
  lemma {:induction false} SkipPrinted(before: seq<byte>, n: Name, after: seq<byte>, passed: nat)
    requires NameOk(n) && passed + |n.labels| <= 127
    ensures SkipName(before + PrintName(n) + after, |before|, passed) == Some(|before + PrintName(n)|)
    decreases |n.labels|
  {
    hide SkipName, PrintEnd;
    if n.labels == [] {
      assert PrintName(n) == PrintEnd(n.pointer);
      SkipEnd(before, n.pointer, after, passed);
    } else {
      var l := n.labels[0];
      var rest := Name(n.labels[1..], n.pointer);
      var first := [|l|] + l;
      assert PrintName(n) == first + PrintName(rest);
      var m := before + PrintName(n) + after;
      assert m == before + first + (PrintName(rest) + after);
      SkipLabel(before, l, PrintName(rest) + after, passed);
      assert m == (before + first) + PrintName(rest) + after;
      SkipPrinted(before + first, rest, after, passed + 1);
    }
  }

  datatype Question = Question(name: Name, kind: u16, classCode: u16)
  datatype Record = Record(name: Name, kind: u16, classCode: u16, ttl: seq<byte>, data: seq<byte>)
  datatype Message = Message(
    id: u16, flags: u16, questions: seq<Question>, answers: seq<Record>, otherCounts: seq<byte>)

  predicate RecordOk(r: Record) {
    NameOk(r.name) && |r.ttl| == 4 && |r.data| <= 0xffff
  }

  predicate MessageOk(m: Message) {
    && |m.questions| <= 0xffff && |m.answers| <= 0xffff && |m.otherCounts| == 4
    && (forall q :: q in m.questions ==> NameOk(q.name)) && (forall r :: r in m.answers ==> RecordOk(r))
  }

  function PrintQuestions(qs: seq<Question>): seq<byte>
    requires forall q :: q in qs ==> NameOk(q.name)
  {
    if qs == [] then []
    else PrintName(qs[0].name) + Big16(qs[0].kind) + Big16(qs[0].classCode) + PrintQuestions(qs[1..])
  }

  function PrintFields(r: Record): seq<byte>
    requires RecordOk(r)
  {
    Big16(r.kind) + Big16(r.classCode) + r.ttl + Big16(|r.data|)
  }

  function PrintRecord(r: Record): seq<byte>
    requires RecordOk(r)
  {
    PrintName(r.name) + PrintFields(r) + r.data
  }

  function PrintRecords(rs: seq<Record>): seq<byte>
    requires forall r :: r in rs ==> RecordOk(r)
  {
    if rs == [] then []
    else
      assert RecordOk(rs[0]);
      PrintRecord(rs[0]) + PrintRecords(rs[1..])
  }

  function PrintHeader(m: Message): seq<byte>
    requires MessageOk(m)
  {
    Big16(m.id) + Big16(m.flags) + Big16(|m.questions|) + Big16(|m.answers|) + m.otherCounts
  }

  function PrintMessage(m: Message): seq<byte>
    requires MessageOk(m)
  {
    PrintHeader(m) + PrintQuestions(m.questions) + PrintRecords(m.answers)
  }

  predicate IsAddress(r: Record) {
    r.kind == 1 && r.classCode == 1 && |r.data| == 4
  }

  /** The first IN A record. */
  function FirstAddress(rs: seq<Record>): Outcome<u32> {
    if rs == [] then NotFound
    else if IsAddress(rs[0]) then Ok(Address(rs[0].data, 0))
    else FirstAddress(rs[1..])
  }

  /** What a resolver may conclude from the message. */
  function Meaning(m: Message): Outcome<u32> {
    if m.flags < 0x8000 then Invalid
    else if m.flags % 16 == 3 then NotFound
    else if m.flags % 16 != 0 then ServerFailure
    else FirstAddress(m.answers)
  }

  lemma {:induction false} QuestionsSkipped(before: seq<byte>, qs: seq<Question>, after: seq<byte>)
    requires forall q :: q in qs ==> NameOk(q.name)
    ensures SkipQuestions(before + PrintQuestions(qs) + after, |before|, |qs|) == Some(|before + PrintQuestions(qs)|)
    decreases |qs|
  {
    hide SkipName, NameOk, PrintName;
    var m := before + PrintQuestions(qs) + after;
    if qs != [] {
      var name := PrintName(qs[0].name);
      var fields := Big16(qs[0].kind) + Big16(qs[0].classCode);
      var rest := PrintQuestions(qs[1..]);
      assert m == before + name + (fields + rest + after);
      FirstName(before, qs[0].name, fields + rest + after);
      assert m == (before + name + fields) + rest + after;
      QuestionsSkipped(before + name + fields, qs[1..], after);
    }
  }

  lemma FirstName(before: seq<byte>, n: Name, after: seq<byte>)
    requires NameOk(n)
    ensures SkipName(before + PrintName(n) + after, |before|, 0) == Some(|before + PrintName(n)|)
  {
    SkipPrinted(before, n, after, 0);
  }

  lemma FieldsRead(before: seq<byte>, r: Record, after: seq<byte>)
    requires RecordOk(r)
    ensures |PrintFields(r)| == 10
    ensures var m := before + PrintFields(r) + r.data + after;
            && Get16(m, |before|) == r.kind && Get16(m, |before| + 2) == r.classCode
            && Get16(m, |before| + 8) == |r.data|
            && (|r.data| == 4 ==> Address(m, |before| + 10) == Address(r.data, 0))
  {
    var f := PrintFields(r);
    var m := before + f + r.data + after;
    Read16(r.kind);
    Read16(r.classCode);
    Read16(|r.data|);
    assert f[0..2] == Big16(r.kind) && f[2..4] == Big16(r.classCode) && f[8..10] == Big16(|r.data|);
    assert m[|before|] == f[0] && m[|before| + 1] == f[1] && m[|before| + 2] == f[2] && m[|before| + 3] == f[3];
    assert m[|before| + 8] == f[8] && m[|before| + 9] == f[9];
    assert |r.data| == 4 ==> m[|before| + 10..|before| + 14] == r.data;
  }

  /** One record is read as printed: it answers, or the search goes on behind it. */
  lemma RecordRead(before: seq<byte>, r: Record, after: seq<byte>, count: nat)
    requires RecordOk(r) && count > 0
    ensures var m := before + PrintRecord(r) + after;
            FindAddress(m, |before|, count)
            == if IsAddress(r) then Ok(Address(r.data, 0)) else FindAddress(m, |before + PrintRecord(r)|, count - 1)
  {
    hide SkipName, NameOk, PrintName, PrintFields, Get16, Address;
    var name, fields := PrintName(r.name), PrintFields(r);
    var m := before + PrintRecord(r) + after;
    assert m == before + name + (fields + r.data + after);
    FirstName(before, r.name, fields + r.data + after);
    assert m == (before + name) + fields + r.data + after;
    FieldsRead(before + name, r, after);
  }

  lemma {:induction false} AddressFound(before: seq<byte>, rs: seq<Record>, after: seq<byte>)
    requires forall r :: r in rs ==> RecordOk(r)
    ensures FindAddress(before + PrintRecords(rs) + after, |before|, |rs|) == FirstAddress(rs)
    decreases |rs|
  {
    hide FindAddress, RecordOk, PrintRecord, IsAddress, Address;
    if rs == [] {
      NoRecords(before + PrintRecords(rs) + after, |before|);
    } else {
      assert RecordOk(rs[0]);
      var first := PrintRecord(rs[0]);
      var rest := PrintRecords(rs[1..]);
      var m := before + PrintRecords(rs) + after;
      assert m == before + first + (rest + after);
      RecordRead(before, rs[0], rest + after, |rs|);
      assert m == (before + first) + rest + after;
      AddressFound(before + first, rs[1..], after);
    }
  }

  lemma NoRecords(m: seq<byte>, offset: nat)
    ensures FindAddress(m, offset, 0) == NotFound
  {
  }

  lemma HeaderRead(m: Message, after: seq<byte>)
    requires MessageOk(m)
    ensures |PrintHeader(m)| == 12
    ensures var b := PrintHeader(m) + after;
            Get16(b, 0) == m.id && Get16(b, 2) == m.flags && Get16(b, 4) == |m.questions| && Get16(b, 6) == |m.answers|
  {
    var h := PrintHeader(m);
    assert h[0..2] == Big16(m.id) && h[2..4] == Big16(m.flags);
    assert h[4..6] == Big16(|m.questions|) && h[6..8] == Big16(|m.answers|);
    Read16(m.id);
    Read16(m.flags);
    Read16(|m.questions|);
    Read16(|m.answers|);
  }

  /** For every well-formed message, with any number of questions and answers, names
      plain or compressed, and whatever follows it: the parser answers what the
      message means if the identifier is the asked one, and nothing otherwise. */
  lemma ResponseMeaning(m: Message, after: seq<byte>, id: u16)
    requires MessageOk(m)
    ensures ParseResponse(PrintMessage(m) + after, id) == if id == m.id then Meaning(m) else Invalid
  {
    hide SkipQuestions, FindAddress, FirstAddress, PrintQuestions, PrintRecords, Get16, PrintHeader;
    var header := PrintHeader(m);
    var questions := PrintQuestions(m.questions);
    var answers := PrintRecords(m.answers);
    var b := PrintMessage(m) + after;
    assert b == header + (questions + answers + after);
    HeaderRead(m, questions + answers + after);
    assert b == header + questions + (answers + after);
    QuestionsSkipped(header, m.questions, answers + after);
    assert b == (header + questions) + answers + after;
    AddressFound(header + questions, m.answers, after);
  }

  // ----- the query read back

  function TextOf(l: seq<byte>): string {
    seq(|l|, i requires 0 <= i < |l| => l[i] as char)
  }

  function Joined(labels: seq<string>): string {
    if labels == [] then ""
    else if |labels| == 1 then labels[0]
    else labels[0] + "." + Joined(labels[1..])
  }

  lemma JoinedStep(l: string, rest: seq<string>)
    requires rest != []
    ensures Joined([l] + rest) == l + "." + Joined(rest)
  {
    assert ([l] + rest)[1..] == rest;
  }

  lemma {:induction false} JoinedLabels(host: string)
    ensures Labels(host) != [] && Joined(Labels(host)) == host
    decreases |host|
  {
    hide Labels, Joined;
    LabelsSplit(host);
    var i := LabelEnd(host);
    if i < |host| {
      JoinedLabels(host[i + 1..]);
      JoinedStep(host[..i], Labels(host[i + 1..]));
      assert host == host[..i] + "." + host[i + 1..];
    } else {
      assert host[..i] == host && [host] + [] == [host];
      assert Joined([host]) == host by { JoinedSingle(host); }
    }
  }

  lemma JoinedSingle(l: string)
    ensures Joined([l]) == l
  {
  }

  /** The octets of each label of a good host. */
  function LabelsOf(labels: seq<string>): seq<seq<byte>>
    requires forall l :: l in labels ==> GoodLabel(l)
  {
    if labels == [] then [] else assert GoodLabel(labels[0]); [LabelBytes(labels[0])] + LabelsOf(labels[1..])
  }

  lemma TextOfLabel(l: string)
    requires GoodLabel(l)
    ensures |LabelBytes(l)| == |l| && TextOf(LabelBytes(l)) == l
  {
    var t := TextOf(LabelBytes(l));
    forall i | 0 <= i < |t| ensures t[i] == l[i] {
      assert LabelBytes(l)[i] == Octet(l[i]) as int;
    }
  }

  lemma {:induction false} LabelsOfOk(labels: seq<string>)
    requires forall l :: l in labels ==> GoodLabel(l)
    ensures |LabelsOf(labels)| == |labels| && forall b :: b in LabelsOf(labels) ==> 1 <= |b| <= 63
    ensures forall k :: 0 <= k < |labels| ==> TextOf(LabelsOf(labels)[k]) == labels[k]
  {
    hide LabelBytes, TextOf;
    if labels != [] {
      assert labels[0] in labels;
      TextOfLabel(labels[0]);
      LabelsOfOk(labels[1..]);
      assert forall k :: 1 <= k < |labels| ==> labels[k] == labels[1..][k - 1];
    }
  }

  lemma LabelsOfStep(l: string, rest: seq<string>)
    requires GoodLabel(l) && forall x :: x in rest ==> GoodLabel(x)
    ensures (forall x :: x in [l] + rest ==> GoodLabel(x)) && LabelsOf([l] + rest) == [LabelBytes(l)] + LabelsOf(rest)
  {
    assert ([l] + rest)[1..] == rest;
  }

  lemma PrintLabelsStep(l: seq<byte>, rest: seq<seq<byte>>)
    requires 1 <= |l| <= 63 && forall x :: x in rest ==> 1 <= |x| <= 63
    ensures PrintLabels([l] + rest) == [|l|] + l + PrintLabels(rest)
  {
    assert ([l] + rest)[1..] == rest;
  }

  lemma GoodLabels(host: string)
    requires GoodHost(host)
    ensures forall l :: l in Labels(host) ==> GoodLabel(l)
  {
  }

  lemma EncodeSplit(host: string, used: nat, capacity: nat)
    requires EncodeLabels(host, used, capacity).Ok?
    ensures var i := LabelEnd(host);
            && GoodLabel(host[..i])
            && (i == |host| ==> EncodeLabels(host, used, capacity).value == [i] + LabelBytes(host[..i]))
            && (i < |host| ==>
                  var rest := EncodeLabels(host[i + 1..], used + 1 + i, capacity);
                  rest.Ok? && EncodeLabels(host, used, capacity).value == [i] + LabelBytes(host[..i]) + rest.value)
  {
    hide LabelBytes, LabelEnd, IsHostChar;
  }

  /** What the loop emits is the printed name without its end. */
  lemma {:induction false} EncodedAsPrinted(host: string, used: nat, capacity: nat)
    requires EncodeLabels(host, used, capacity).Ok?
    ensures GoodHost(host)
    ensures (forall b :: b in LabelsOf(Labels(host)) ==> 1 <= |b| <= 63)
            && EncodeLabels(host, used, capacity).value == PrintLabels(LabelsOf(Labels(host)))
    decreases |host|
  {
    hide LabelBytes, Labels, LabelsOf, PrintLabels, LabelEnd, GoodHost, TextOf, IsHostChar, EncodeLabels;
    EncodeIff(host, used, capacity);
    GoodLabels(host);
    LabelsOfOk(Labels(host));
    LabelsSplit(host);
    EncodeSplit(host, used, capacity);
    var i := LabelEnd(host);
    var l := host[..i];
    if i < |host| {
      var tail := host[i + 1..];
      EncodedAsPrinted(tail, used + 1 + i, capacity);
      GoodLabels(tail);
      LabelsOfStep(l, Labels(tail));
      PrintLabelsStep(LabelBytes(l), LabelsOf(Labels(tail)));
    } else {
      LastLabel(l);
      assert Labels(host) == [l];
    }
  }

  lemma LastLabel(l: string)
    requires GoodLabel(l)
    ensures (forall x :: x in [l] ==> GoodLabel(x)) && LabelsOf([l]) == [LabelBytes(l)]
    ensures |LabelBytes(l)| == |l| && PrintLabels([LabelBytes(l)]) == [|l|] + LabelBytes(l)
  {
    assert [l][1..] == [] && [LabelBytes(l)][1..] == [];
  }

  /** Every query is the header with recursion desired, the labels of the host, a zero
      octet, type A and class IN, where the labels, read as text and joined by dots, are the
      host.  Up to 127 labels that is one message with a single question; the kernel's own
      parser skips the name of the question exactly then, although it builds longer ones. */
  lemma QueryMeaning(host: string, id: u16, capacity: nat)
    requires BuildQuery(host, id, capacity).Ok?
    ensures var labels := Labels(host);
            && GoodHost(host) && Joined(labels) == host && |LabelsOf(labels)| == |labels|
            && (forall k :: 0 <= k < |labels| ==> TextOf(LabelsOf(labels)[k]) == labels[k])
            && (forall b :: b in LabelsOf(labels) ==> 1 <= |b| <= 63)
            && BuildQuery(host, id, capacity).value ==
               QueryHeader(id) + PrintLabels(LabelsOf(labels)) + [0] + Big16(1) + Big16(1)
            && (SkipName(BuildQuery(host, id, capacity).value, 12, 0).Some? <==> |labels| <= 127)
            && (|labels| <= 127 ==>
                  var m := Message(id, 0x0100, [Question(Name(LabelsOf(labels), None), 1, 1)], [], [0, 0, 0, 0]);
                  MessageOk(m) && BuildQuery(host, id, capacity).value == PrintMessage(m))
  {
    hide EncodeLabels, Labels, LabelsOf, PrintLabels, GoodLabel, Joined, TextOf, Big16, QueryHeader, SkipName;
    QueryIff(host, id, capacity);
    EncodedAsPrinted(host, 12, capacity);
    JoinedLabels(host);
    LabelsOfOk(Labels(host));
    QueryIsSkipped(LabelsOf(Labels(host)), id);
    if |Labels(host)| <= 127 { QueryPrinted(LabelsOf(Labels(host)), id); }
  }

  lemma {:induction false} TooManyLabels(before: seq<byte>, labels: seq<seq<byte>>, after: seq<byte>, passed: nat)
    requires (forall l :: l in labels ==> 1 <= |l| <= 63) && passed <= 127 < passed + |labels|
    ensures SkipName(before + PrintLabels(labels) + after, |before|, passed) == None
    decreases |labels|
  {
    hide PrintLabels, SkipName;
    var l := labels[0];
    assert l in labels && forall x :: x in labels[1..] ==> x in labels;
    var first := [|l|] + l;
    assert labels == [l] + labels[1..];
    PrintLabelsStep(l, labels[1..]);
    var m := before + PrintLabels(labels) + after;
    assert m == before + first + (PrintLabels(labels[1..]) + after);
    if passed < 127 {
      SkipLabel(before, l, PrintLabels(labels[1..]) + after, passed);
      assert m == (before + first) + PrintLabels(labels[1..]) + after;
      TooManyLabels(before + first, labels[1..], after, passed + 1);
    } else {
      OneTooMany(before, l, PrintLabels(labels[1..]) + after);
    }
  }

  lemma OneTooMany(before: seq<byte>, l: seq<byte>, after: seq<byte>)
    requires 1 <= |l| <= 63
    ensures SkipName(before + ([|l|] + l) + after, |before|, 127) == None
  {
    assert (before + ([|l|] + l) + after)[|before|] == |l|;
  }

  lemma QueryIsSkipped(labels: seq<seq<byte>>, id: u16)
    requires forall l :: l in labels ==> 1 <= |l| <= 63
    ensures SkipName(QueryHeader(id) + PrintLabels(labels) + [0] + Big16(1) + Big16(1), 12, 0).Some? <==>
            |labels| <= 127
  {
    hide PrintLabels, Big16, SkipName, QueryHeader;
    HeaderLength(id);
    var before, name, after := QueryHeader(id), PrintLabels(labels), Big16(1) + Big16(1);
    var m := before + name + [0] + Big16(1) + Big16(1);
    assert m == before + (name + [0]) + after && m == before + name + ([0] + after);
    if |labels| <= 127 {
      SkipPlain(before, labels, after);
    } else {
      TooManyLabels(before, labels, [0] + after, 0);
    }
  }

  lemma HeaderLength(id: u16)
    ensures |QueryHeader(id)| == 12
  {
  }

  lemma SkipPlain(before: seq<byte>, labels: seq<seq<byte>>, after: seq<byte>)
    requires |labels| <= 127 && forall l :: l in labels ==> 1 <= |l| <= 63
    ensures SkipName(before + (PrintLabels(labels) + [0]) + after, |before|, 0).Some?
  {
    hide SkipName, PrintLabels;
    SkipPrinted(before, Name(labels, None), after, 0);
  }

  /** A host of `n` labels of one letter. */
  function LetterHost(n: nat): (host: string)
    requires n >= 1
    ensures |host| == 2 * n - 1
  {
    if n == 1 then "a" else "a." + LetterHost(n - 1)
  }

  lemma {:induction false} LetterLabels(n: nat)
    requires n >= 1
    ensures GoodHost(LetterHost(n)) && |Labels(LetterHost(n))| == n
  {
    hide GoodHost, Labels;
    var host := LetterHost(n);
    LabelsSplit(host);
    GoodHostIff(host);
    assert GoodLabel("a");
    assert host[0] == 'a' && host[1..] == (if n == 1 then "" else "." + LetterHost(n - 1));
    assert LabelEnd(host[1..]) == 0;
    assert LabelEnd(host) == 1 && host[..1] == "a";
    if n > 1 {
      assert host[2..] == LetterHost(n - 1);
      LetterLabels(n - 1);
    }
  }

  /** The failing input: 128 labels of one letter are accepted, and the parser refuses the
      name in the query that was built. */
  lemma LongHostIsRefused(id: u16, capacity: nat)
    requires capacity >= 273
    ensures BuildQuery(LetterHost(128), id, capacity).Ok?
    ensures SkipName(BuildQuery(LetterHost(128), id, capacity).value, 12, 0) == None
  {
    hide GoodHost, Labels, BuildQuery, SkipName, LetterHost;
    LetterLabels(128);
    QueryIff(LetterHost(128), id, capacity);
    QueryMeaning(LetterHost(128), id, capacity);
  }

  lemma QueryPrinted(labels: seq<seq<byte>>, id: u16)
    requires |labels| <= 127 && forall l :: l in labels ==> 1 <= |l| <= 63
    ensures var m := Message(id, 0x0100, [Question(Name(labels, None), 1, 1)], [], [0, 0, 0, 0]);
            MessageOk(m) && QueryHeader(id) + PrintLabels(labels) + [0] + Big16(1) + Big16(1) == PrintMessage(m)
  {
    hide PrintLabels, Big16, PrintHeader, QueryHeader, PrintQuestions, PrintRecords, PrintMessage, MessageOk, NameOk;
    var q := Question(Name(labels, None), 1, 1);
    var m := Message(id, 0x0100, [q], [], [0, 0, 0, 0]);
    QueryMessageOk(labels, id);
    OneQuestion(q);
    NoAnswers(m);
    HeaderIsQuery(m, id);
    Reassociate(QueryHeader(id), PrintLabels(labels), [0], Big16(1), Big16(1));
  }

  lemma QueryMessageOk(labels: seq<seq<byte>>, id: u16)
    requires |labels| <= 127 && forall l :: l in labels ==> 1 <= |l| <= 63
    ensures NameOk(Name(labels, None))
    ensures MessageOk(Message(id, 0x0100, [Question(Name(labels, None), 1, 1)], [], [0, 0, 0, 0]))
  {
  }

  lemma NoAnswers(m: Message)
    requires MessageOk(m) && m.answers == []
    ensures PrintMessage(m) == PrintHeader(m) + PrintQuestions(m.questions)
  {
    hide PrintHeader, PrintQuestions;
  }

  lemma OneQuestion(q: Question)
    requires NameOk(q.name) && q.name.pointer == None
    ensures (forall x :: x in [q] ==> NameOk(x.name))
    ensures PrintQuestions([q]) == PrintLabels(q.name.labels) + [0] + Big16(q.kind) + Big16(q.classCode)
  {
    hide PrintLabels, Big16, NameOk;
    assert [q][1..] == [];
  }

  lemma HeaderIsQuery(m: Message, id: u16)
    requires MessageOk(m) && m.id == id && m.flags == 0x0100 && |m.questions| == 1 && m.answers == []
    requires m.otherCounts == [0, 0, 0, 0]
    ensures PrintHeader(m) == QueryHeader(id)
  {
    assert Big16(0) + [0, 0, 0, 0] == [0, 0, 0, 0, 0, 0];
  }

  lemma Reassociate(a: seq<byte>, b: seq<byte>, c: seq<byte>, d: seq<byte>, e: seq<byte>)
    ensures a + b + c + d + e == a + (b + c + d + e)
  {
  }
}
