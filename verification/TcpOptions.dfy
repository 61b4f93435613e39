/** The TCP option area: `parse_tcp_maximum_segment_size` against a printer of options
    (section 3.2 of RFC 9293). */
module TcpOptions {
  import opened Words
  import opened Checksums
  import opened FrameCodec

  datatype TcpOption =
    | NoOperation
    | MaximumSegmentSize(value: u16)
    | Other(kind: byte, body: seq<byte>)

  /** An option of another kind, or one of kind 2 with an unusual length. */
  predicate WellFormed(o: TcpOption) {
    o.Other? ==> o.kind > 1 && |o.body| <= 253 && !(o.kind == 2 && |o.body| == 2)
  }

  function Print(o: TcpOption): (r: seq<byte>)
    requires WellFormed(o)
    ensures r != []
  {
    match o
    case NoOperation => [1]
    case MaximumSegmentSize(value) => [2, 4] + Big16(value)
    case Other(kind, body) => [kind, |body| + 2] + body
  }

  function PrintAll(os: seq<TcpOption>): seq<byte>
    requires forall o :: o in os ==> WellFormed(o)
  {
    if os == [] then [] else Print(os[0]) + PrintAll(os[1..])
  }

  function FirstMss(os: seq<TcpOption>): u16 {
    if os == [] then 0
    else if os[0].MaximumSegmentSize? then os[0].value
    else FirstMss(os[1..])
  }

  /** Nothing after the options, or an end-of-options byte and anything. */
  predicate Ends(rest: seq<byte>) {
    rest == [] || rest[0] == 0
  }

  lemma {:induction false} MssSkips(before: seq<byte>, o: TcpOption, after: seq<byte>, payload: seq<byte>)
    requires WellFormed(o) && !o.MaximumSegmentSize?
    ensures var tcp := before + Print(o) + after + payload;
            var header := |before + Print(o) + after|;
            MssFrom(tcp, |before|, header) == MssFrom(tcp, |before + Print(o)|, header)
  {
    var tcp := before + Print(o) + after + payload;
    assert tcp[|before|] == Print(o)[0];
    if o.Other? { assert tcp[|before| + 1] == Print(o)[1]; }
  }

  lemma MssFound(before: seq<byte>, value: u16, after: seq<byte>, payload: seq<byte>)
    ensures var header := before + Print(MaximumSegmentSize(value)) + after;
            MssFrom(header + payload, |before|, |header|) == value
  {
    var printed := Print(MaximumSegmentSize(value));
    var tcp := before + printed + after + payload;
    assert tcp[|before|] == printed[0] && tcp[|before| + 1] == printed[1];
    assert tcp[|before| + 2..|before| + 4] == printed[2..] == Big16(value);
    SliceRead(tcp, |before| + 2);
    Read16(value);
  }

  lemma MssAbsent(before: seq<byte>, rest: seq<byte>, payload: seq<byte>)
    requires Ends(rest)
    ensures MssFrom(before + rest + payload, |before|, |before + rest|) == 0
  {
    if rest != [] { assert (before + rest + payload)[|before|] == rest[0]; }
  }

  /** Over every well-formed option list, however it ends and whatever follows the
      header, the loop returns the value of the first MSS option, else 0. */
  lemma {:induction false} MssIsFirst(
    before: seq<byte>, os: seq<TcpOption>, rest: seq<byte>, payload: seq<byte>)
    requires (forall o :: o in os ==> WellFormed(o)) && Ends(rest)
    ensures var header := before + PrintAll(os) + rest;
            MssFrom(header + payload, |before|, |header|) == FirstMss(os)
    decreases |os|
  {
    hide MssFrom, Print, Ends;
    var header := before + PrintAll(os) + rest;
    if os == [] {
      assert header == before + rest;
      MssAbsent(before, rest, payload);
    } else {
      var printed := Print(os[0]);
      var after := PrintAll(os[1..]) + rest;
      assert header == before + printed + after;
      if os[0].MaximumSegmentSize? {
        MssFound(before, os[0].value, after, payload);
      } else {
        MssSkips(before, os[0], after, payload);
        assert header == (before + printed) + PrintAll(os[1..]) + rest;
        MssIsFirst(before + printed, os[1..], rest, payload);
      }
    }
  }
}
