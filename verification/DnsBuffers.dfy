/** The loops of libs/libnet/dns.c over the caller's buffers.  The query is written in
    place into an array of which only `capacity` bytes may be used; the response is read
    through a moving offset.  Each method is proved against the function of DnsCodec that
    gives its meaning. */
module DnsBuffers {
  import opened Words
  import opened Wrappers
  import opened Checksums
  import opened DnsCodec

  function Prepended(done: seq<byte>, o: Outcome<seq<byte>>): Outcome<seq<byte>> {
    if o.Ok? then Ok(done + o.value) else o
  }

  lemma LabelEndIs(rest: string, k: nat)
    requires k <= |rest| && (k == |rest| || rest[k] == '.') && forall j :: 0 <= j < k ==> rest[j] != '.'
    ensures LabelEnd(rest) == k
  {
  }

  /** A bad character in the first label makes the rest invalid. */
  lemma BadCharacter(rest: string, k: nat, used: nat, capacity: nat)
    requires k < |rest| && rest[k] != '.' && !IsHostChar(rest[k]) && forall j :: 0 <= j < k ==> rest[j] != '.'
    ensures EncodeLabels(rest, used, capacity) == Invalid
  {
    var i := LabelEnd(rest);
    assert i > k;
    assert rest[..i][k] == rest[k];
    assert rest[k] in rest[..i];
  }

  lemma GoodCharacters(rest: string, k: nat)
    requires k <= |rest| && forall j :: 0 <= j < k ==> IsHostChar(rest[j])
    ensures forall c :: c in rest[..k] ==> IsHostChar(c)
  {
  }

  /** What `EncodeLabels` does once the first label is known to be `rest[..k]`. */
  lemma OneLabel(rest: string, k: nat, used: nat, capacity: nat)
    requires LabelEnd(rest) == k && forall c :: c in rest[..k] ==> IsHostChar(c)
    ensures var o := EncodeLabels(rest, used, capacity);
            if k > 63 then o == Invalid
            else if k == 0 || used + 1 + k + 5 > capacity then o == TooLarge
            else var bytes := [k] + LabelBytes(rest[..k]);
                 o == if k == |rest| then Ok(bytes)
                      else Prepended(bytes, EncodeLabels(rest[k + 1..], used + 1 + k, capacity))
  {
    hide LabelBytes, LabelEnd;
  }

  /** `arwill_dns_build_a_query`; `output` is at least `capacity` bytes long. */
  method BuildAQuery(host: string, id: u16, output: array<byte>, capacity: nat) returns (r: Outcome<nat>)
    requires capacity <= output.Length
    modifies output
    ensures match BuildQuery(host, id, capacity)
            case Ok(bytes) => r == Ok(|bytes|) && |bytes| <= capacity && output[..|bytes|] == bytes
            case Invalid => r == Invalid
            case TooLarge => r == TooLarge
            case NotFound => r == NotFound
            case ServerFailure => r == ServerFailure
  {
    hide LabelEnd, EncodeLabels, LabelBytes, QueryHeader;
    if host == "" || capacity < 17 { return Invalid; }
    PutHeader(output, id);
    var used: nat, start: nat := 12, 0;
    assert host[0..] == host;
    ghost var name: seq<byte> := [];
    NothingPrepended(EncodeLabels(host, 12, capacity));
    while true
      invariant start <= |host| && 12 <= used && used + 5 <= capacity
      invariant output[..used] == QueryHeader(id) + name
      invariant EncodeLabels(host, 12, capacity) == Prepended(name, EncodeLabels(host[start..], used, capacity))
      decreases |host| - start
    {
      ghost var rest := host[start..];
      var index, good := ScanLabel(host, start, used, capacity);
      if !good { return Invalid; }
      var length := index - start;
      OneLabel(rest, length, used, capacity);
      if length == 0 || length > 63 || used + 1 + length + 5 > capacity {
        return if length > 63 then Invalid else TooLarge;
      }
      ghost var encoded := [length] + LabelBytes(rest[..length]);
      assert rest[..length] == host[start..index];
      PutLabel(output, used, host[start..index]);
      used := used + 1 + length;
      assert output[..used] == QueryHeader(id) + (name + encoded);
      if index == |host| {
        name := name + encoded;
        break;
      }
      AppendPrepended(name, encoded, EncodeLabels(rest[length + 1..], used, capacity));
      assert rest[length + 1..] == host[index + 1..];
      name := name + encoded;
      start := index + 1;
    }
    PutTrailer(output, used);
    used := used + 5;
    r := Ok(used);
  }

  lemma NothingPrepended(o: Outcome<seq<byte>>)
    ensures Prepended([], o) == o
  {
    if o.Ok? { assert [] + o.value == o.value; }
  }

  /** The scan for the end of a label, character by character. */
  method ScanLabel(host: string, start: nat, ghost used: nat, ghost capacity: nat) returns (index: nat, good: bool)
    requires start <= |host|
    ensures start <= index <= |host|
    ensures !good ==> EncodeLabels(host[start..], used, capacity) == Invalid
    ensures good ==> LabelEnd(host[start..]) == index - start
                     && forall c :: c in host[start..][..index - start] ==> IsHostChar(c)
  {
    hide LabelEnd, EncodeLabels;
    ghost var rest := host[start..];
    index := start;
    while index < |host| && host[index] != '.'
      invariant start <= index <= |host|
      invariant forall j :: 0 <= j < index - start ==> rest[j] != '.' && IsHostChar(rest[j])
    {
      if !IsHostChar(host[index]) {
        BadCharacter(rest, index - start, used, capacity);
        return index, false;
      }
      index := index + 1;
    }
    LabelEndIs(rest, index - start);
    GoodCharacters(rest, index - start);
    good := true;
  }

  /** The root label, then type A and class IN. */
  method PutTrailer(output: array<byte>, used: nat)
    requires used + 5 <= output.Length
    modifies output
    ensures output[..used + 5] == old(output[..used]) + [0] + Big16(1) + Big16(1)
  {
    output[used] := 0;
    output[used + 1], output[used + 2], output[used + 3], output[used + 4] := 0, 1, 0, 1;
  }

  lemma AppendPrepended(a: seq<byte>, b: seq<byte>, o: Outcome<seq<byte>>)
    ensures Prepended(a, Prepended(b, o)) == Prepended(a + b, o)
  {
    if o.Ok? { assert a + (b + o.value) == a + b + o.value; }
  }

  method PutHeader(output: array<byte>, id: u16)
    requires output.Length >= 12
    modifies output
    ensures output[..12] == QueryHeader(id)
    ensures forall k :: 12 <= k < output.Length ==> output[k] == old(output[k])
  {
    var index := 0;
    while index < 12
      invariant 0 <= index <= 12 && forall k :: 0 <= k < index ==> output[k] == 0
      invariant forall k :: 12 <= k < output.Length ==> output[k] == old(output[k])
    {
      output[index] := 0;
      index := index + 1;
    }
    output[0], output[1] := id / 256, id % 256;
    output[2], output[3] := 1, 0;
    output[4], output[5] := 0, 1;
  }

  /** The length octet and the characters of one label. */
  method PutLabel(output: array<byte>, used: nat, l: string)
    requires |l| <= 63 && used + 1 + |l| <= output.Length && forall c :: c in l ==> IsHostChar(c)
    modifies output
    ensures output[..used] == old(output[..used])
    ensures output[used..used + 1 + |l|] == [|l|] + LabelBytes(l)
  {
    output[used] := |l|;
    var k := 0;
    while k < |l|
      invariant 0 <= k <= |l| && output[used] == |l| && output[..used] == old(output[..used])
      invariant forall j :: 0 <= j < k ==> output[used + 1 + j] == LabelBytes(l)[j]
    {
      output[used + 1 + k] := Octet(l[k]);
      k := k + 1;
    }
    assert output[used + 1..used + 1 + |l|] == LabelBytes(l);
  }

  /** `skip_name` */
  method SkipOver(m: seq<byte>, offset: nat) returns (r: Option<nat>)
    ensures r == SkipName(m, offset, 0)
  {
    var position, labels := offset, 0;
    while position < |m|
      invariant SkipName(m, offset, 0) == SkipName(m, position, labels)
      decreases |m| - position
    {
      var part := m[position];
      position := position + 1;
      if part == 0 { return Some(position); }
      if part >= 192 {
        if position >= |m| { return None; }
        return Some(position + 1);
      }
      if part > 63 || position + part > |m| { return None; }
      labels := labels + 1;
      if labels > 127 { return None; }
      position := position + part;
    }
    return None;
  }

  /** `arwill_dns_parse_a_response` */
  method ParseAResponse(m: seq<byte>, id: u16) returns (r: Outcome<u32>)
    ensures r == ParseResponse(m, id)
  {
    hide SkipName, Get16;
    if |m| < 12 || Get16(m, 0) != id || Get16(m, 2) < 0x8000 { return Invalid; }
    var flags := Get16(m, 2);
    if flags % 16 != 0 { return if flags % 16 == 3 then NotFound else ServerFailure; }
    var questions, answers := Get16(m, 4), Get16(m, 6);
    var offset: nat, question: nat := 12, 0;
    while question < questions
      invariant question <= questions
      invariant SkipQuestions(m, 12, questions) == SkipQuestions(m, offset, questions - question)
    {
      var end := SkipOver(m, offset);
      if end.None? || end.value + 4 > |m| { return Invalid; }
      offset := end.value + 4;
      question := question + 1;
    }
    ghost var start := offset;
    var answer: nat := 0;
    while answer < answers
      invariant answer <= answers
      invariant FindAddress(m, start, answers) == FindAddress(m, offset, answers - answer)
    {
      var end := SkipOver(m, offset);
      if end.None? || end.value + 10 > |m| { return Invalid; }
      offset := end.value;
      var kind, classCode, length := Get16(m, offset), Get16(m, offset + 2), Get16(m, offset + 8);
      offset := offset + 10;
      if offset + length > |m| { return Invalid; }
      if kind == 1 && classCode == 1 && length == 4 { return Ok(Address(m, offset)); }
      offset := offset + length;
      answer := answer + 1;
    }
    return NotFound;
  }
}
