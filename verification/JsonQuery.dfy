/** A JSON query on its way upstream: build_dns_query of dns_json.rs and the query half of _proxy in lib.rs. */
module JsonQuery {
  import opened Wire
  import opened Names
  import opened RrTypes
  import opened Messages
  import opened CodecRoundTrip
  import opened HostNames
  import opened Layout
  import opened Edns
  import opened EdnsTheorems
  import opened Ecs
  import opened EcsTheorems
  import opened MinTtlTheorem

  const UDP_SIZE: uint16 := 4096
  const MIN_DNS_PACKET_LEN := 17
  const DO_FLAG: uint32 := 0x8000

  // ---------------------------------------------------------------- build_dns_query

  /** The subnet parameter: absent, not an IPv4 address, or one. */
  datatype Subnet = NoSubnet | NotAnAddress | Subnet4(a: byte, b: byte, c: byte, d: byte)

  datatype DnsJsonQuery = DnsJsonQuery(
    name: Bytes, qtype: Option<uint16>, cd: Option<bool>, dnssecOk: Option<bool>, subnet: Subnet)

  /** The pieces of the name between dots that are not empty. */
  function NonEmpty(labels: Labels): (r: Labels)
    ensures forall l :: l in r <==> l in labels && l != []
  {
    if labels == [] then []
    else
      assert labels == [labels[0]] + labels[1..];
      if labels[0] == [] then NonEmpty(labels[1..]) else [labels[0]] + NonEmpty(labels[1..])
  }

  function QueryLabels(q: DnsJsonQuery): Labels {
    NonEmpty(Split(q.name))
  }

  lemma {:induction false} NonEmptyConcat(a: Labels, b: Labels)
    ensures NonEmpty(a + b) == NonEmpty(a) + NonEmpty(b)
    ensures NonEmpty([]) == []
    ensures forall l: Bytes :: l != [] ==> NonEmpty([l]) == [l]
    ensures NonEmpty([[]]) == []
  {
    NonEmptyJoin(a, b);
    NonEmptyOnes();
  }

  lemma {:induction false} NonEmptyJoin(a: Labels, b: Labels)
    ensures NonEmpty(a + b) == NonEmpty(a) + NonEmpty(b)
    decreases |a|
  {
    if a == [] {
      assert a + b == b;
    } else {
      assert (a + b)[1..] == a[1..] + b;
      NonEmptyJoin(a[1..], b);
    }
  }

  lemma {:induction false} NonEmptyOnes()
    ensures NonEmpty([[]]) == [] && forall l: Bytes :: l != [] ==> NonEmpty([l]) == [l]
  {
    forall l: Bytes | l != []
      ensures NonEmpty([l]) == [l]
    {
      assert [l][1..] == [];
    }
    var one: Labels := [[]];
    assert one[1..] == [];
  }

  lemma {:induction false} NonEmptyAll(labels: Labels)
    requires NoneEmpty(labels)
    ensures NonEmpty(labels) == labels
    decreases |labels|
  {
    if labels != [] {
      assert labels == [labels[0]] + labels[1..];
      assert labels[0] in labels && forall l :: l in labels[1..] ==> l in labels;
      NonEmptyAll(labels[1..]);
    }
  }

  lemma {:induction false} NonEmptyNone(labels: Labels)
    requires forall l :: l in labels ==> l == []
    ensures NonEmpty(labels) == []
  {
    if labels != [] {
      assert labels[0] in labels && forall l :: l in labels[1..] ==> l in labels;
      NonEmptyNone(labels[1..]);
    }
  }

  /**
    The labels asked for, against the text of the name: with no empty piece between its dots they are
    the pieces in order, so their dotted text is the name without the dots at its end.
   */
  lemma {:induction false} QueryText(q: DnsJsonQuery)
    requires NoneEmpty(Split(TrimDots(q.name))) || TrimDots(q.name) == []
    ensures JoinDots(QueryLabels(q)) == TrimDots(q.name)
    ensures TrimDots(q.name) != [] ==> QueryLabels(q) == Split(TrimDots(q.name))
  {
    hide Split, NonEmpty, JoinDots;
    var trimmed := TrimDots(q.name);
    var n := SplitTrimmed(q.name);
    NonEmptyJoin(Split(trimmed), Empties(n));
    NonEmptyNone(Empties(n));
    SplitJoins(trimmed);
    if trimmed == [] {
      NoText();
      NonEmptyOnes();
      assert QueryLabels(q) == [] + [];
    } else {
      NonEmptyAll(Split(trimmed));
      assert Split(trimmed) + [] == Split(trimmed);
    }
  }

  lemma {:induction false} NoText()
    ensures Split([]) == [[]] && JoinDots([]) == []
  {
  }

  predicate WantsOpt(q: DnsJsonQuery) {
    q.dnssecOk.GetOr(false) || !q.subnet.NoSubnet?
  }

  function ClientSubnet(subnet: Subnet): Bytes
    requires subnet.Subnet4?
  {
    Be16(FAMILY_IPV4) + [24] + [0] + [subnet.a, subnet.b, subnet.c]
  }

  function Option8(data: Bytes): Bytes
    requires |data| < 0x1_0000
  {
    Be16(OPTION_SUBNET) + Be16(|data|) + data
  }

  function ClientOption(subnet: Subnet): (b: Bytes)
    ensures |b| <= 11
  {
    if subnet.Subnet4? then Option8(ClientSubnet(subnet)) else []
  }

  function OptRr(size: uint16, ttl: uint32, rdata: Bytes): Record {
    Record([], OPT, size, ttl, rdata)
  }

  function QueryFlags(q: DnsJsonQuery): uint32 {
    if q.dnssecOk.GetOr(false) then DO_FLAG else 0
  }

  /** The message a query stands for. */
  function Asked(q: DnsJsonQuery, id: uint16): Msg {
    Simple(Header(id, false, 0, false, false, true, false, false, false, q.cd.GetOr(false), 0),
           Question(QueryLabels(q), FromU16(q.qtype.GetOr(TYPE_A)), CLASS_IN),
           if WantsOpt(q) then Some(OptRr(UDP_SIZE, QueryFlags(q), ClientOption(q.subnet))) else None)
  }

  /** The message in numbers (sections 4.1.1 and 4.1.2 of RFC 1035, 6.1.2 and 6.1.3 of RFC 6891). */
  lemma {:induction false} AskedInNumbers(q: DnsJsonQuery, id: uint16)
    ensures var m := Asked(q, id);
            && m.header.id == id && HeaderToBits(m.header) == (if q.cd == Some(true) then 0x0110 else 0x0100)
            && |m.questions| == 1 && m.answers == [] && m.authorities == []
            && m.questions[0].name == QueryLabels(q) && m.questions[0].qclass == 1
            && ToU16(m.questions[0].qtype) == (match q.qtype case Some(code) => code case None => 1)
            && (m.additionals == [] <==> q.dnssecOk != Some(true) && q.subnet == NoSubnet)
            && |m.additionals| <= 1
    ensures var m := Asked(q, id);
            m.additionals != [] ==>
              var rr := m.additionals[0];
              && rr.name == [] && rr.rrType == OPT && rr.rrClass == 4096
              && rr.ttl == (if q.dnssecOk == Some(true) then 0x8000 else 0)
              && rr.rdata == match q.subnet
                             case Subnet4(a, b, c, _) => [0, 8, 0, 7, 0, 1, 24, 0, a, b, c]
                             case _ => []
  {
    hide FromU16, ToU16;
    CodeRoundTrip(q.qtype.GetOr(TYPE_A));
  }

  /** A length octet holds the length modulo 256. */
  function RawName(labels: Labels): Bytes {
    if labels == [] then [0] else [|labels[0]| % 256] + labels[0] + RawName(labels[1..])
  }

  function RootRecord(size: uint16, ttl: uint32, rdata: Bytes): Bytes {
    [0] + Be16(TYPE_OPT) + Be16(size) + (Be32(ttl) + Be16(|rdata| % 0x1_0000)) + rdata
  }

  function QueryHead(q: DnsJsonQuery, id: uint16): (b: Bytes)
    ensures |b| == HEADER_SIZE
  {
    Be16(id) + [1, if q.cd.GetOr(false) then 0x10 else 0] + Be16(1) + [0, 0, 0, 0]
    + Be16(if WantsOpt(q) then 1 else 0)
  }

  function Built(q: DnsJsonQuery, id: uint16): Bytes {
    QueryHead(q, id) + (RawName(QueryLabels(q)) + (Be16(q.qtype.GetOr(TYPE_A)) + Be16(CLASS_IN)))
    + if WantsOpt(q) then RootRecord(UDP_SIZE, QueryFlags(q), ClientOption(q.subnet)) else []
  }

  method PushLabels(start: Bytes, labels: Labels) returns (packet: Bytes)
    ensures packet == start + RawName(NonEmpty(labels))
  {
    packet := start;
    for i := 0 to |labels|
      invariant packet + RawName(NonEmpty(labels[i..])) == start + RawName(NonEmpty(labels))
    {
      var label_ := labels[i];
      assert labels[i..] == [label_] + labels[i + 1..];
      if |label_| != 0 {
        ghost var before := packet;
        packet := packet + [|label_| % 256];
        packet := packet + label_;
        assert packet == before + ([|label_| % 256] + label_);
        assert ([label_] + NonEmpty(labels[i + 1..]))[1..] == NonEmpty(labels[i + 1..]);
        ConcatAssoc(before, [|label_| % 256] + label_, RawName(NonEmpty(labels[i + 1..])));
      }
    }
    packet := packet + [0];
  }

  /** `id` is the random transaction id. */
  method BuildDnsQuery(q: DnsJsonQuery, id: uint16) returns (packet: Bytes)
    ensures packet == Built(q, id)
  {
    hide Split, NonEmpty, RawName;
    packet := seq(12, _ => 0);
    packet := packet[0 := id / 256];
    packet := packet[1 := id % 256];
    packet := packet[2 := 1];
    packet := packet[3 := 0];
    if q.cd.GetOr(false) {
      packet := packet[3 := 0x10];
    }
    packet := Put16(packet, 4, 1);
    ghost var head := packet;
    var labels := Split(q.name);
    packet := PushLabels(packet, labels);
    packet := packet + Be16(q.qtype.GetOr(TYPE_A));
    packet := packet + Be16(CLASS_IN);
    ghost var question := RawName(QueryLabels(q)) + (Be16(q.qtype.GetOr(TYPE_A)) + Be16(CLASS_IN));
    assert packet == head + question;
    HeadPatched(q, id, head);
    if !WantsOpt(q) {
      assert packet + [] == packet;
      return;
    }
    packet := Put16(packet, 10, 1);
    PutInHead(head, question, 10, 1);
    packet := PushOpt(packet, q);
  }

  /** The OPT record, its data length patched in after its data are known. */
  method PushOpt(start: Bytes, q: DnsJsonQuery) returns (packet: Bytes)
    ensures packet == start + RootRecord(UDP_SIZE, QueryFlags(q), ClientOption(q.subnet))
  {
    hide ClientOption;
    packet := start + [0];
    packet := packet + Be16(TYPE_OPT);
    packet := packet + [0x10, 0x00];
    packet := packet + [0];
    packet := packet + [0];
    var flags: uint16 := if q.dnssecOk.GetOr(false) then DO_FLAG else 0;
    packet := packet + Be16(flags);
    var rdlengthPos := |packet|;
    ghost var before := packet;
    packet := packet + [0, 0];
    var optData := PushSubnet(q.subnet);
    packet := Put16(packet, rdlengthPos, |optData|);
    PutLast(before, [0, 0], |optData|);
    packet := packet + optData;
    assert Be32(QueryFlags(q)) == [0, 0] + Be16(flags);
    assert before == start + ([0] + Be16(TYPE_OPT) + Be16(UDP_SIZE) + Be32(QueryFlags(q)));
    hide Be16, Be32;
  }

  /** The client's subnet, taken to be a /24. */
  method PushSubnet(subnet: Subnet) returns (optData: Bytes)
    ensures optData == ClientOption(subnet)
  {
    optData := [];
    if !subnet.Subnet4? {
      return;
    }
    optData := optData + [0x00, 0x08];
    optData := optData + [0x00, 0x07];
    optData := optData + [0x00, 0x01];
    optData := optData + [24];
    optData := optData + [0];
    optData := optData + [subnet.a, subnet.b, subnet.c];
  }

  lemma {:induction false} HeadPatched(q: DnsJsonQuery, id: uint16, head: Bytes)
    requires |head| == 12 && head[..2] == Be16(id) && head[2] == 1 && head[3] == (if q.cd.GetOr(false) then 0x10 else 0)
    requires head[4..] == [0, 1, 0, 0, 0, 0, 0, 0]
    ensures QueryHead(q, id) == if WantsOpt(q) then Put16(head, 10, 1) else head
  {
  }

  lemma {:induction false} PutInHead(head: Bytes, rest: Bytes, o: nat, n: uint16)
    requires o + 2 <= |head|
    ensures Put16(head + rest, o, n) == Put16(head, o, n) + rest
  {
  }

  lemma {:induction false} PutLast(before: Bytes, last: Bytes, n: uint16)
    requires |last| == 2
    ensures Put16(before + last, |before|, n) == before + Be16(n)
  {
  }

  // ---------------------------------------------------------------- one question and at most one OPT

  function Simple(h: Header, q: Question, opt: Option<Record>): Msg {
    Msg(h, false, [q], [], [], if opt.Some? then [opt.value] else [])
  }

  ghost predicate SimpleOk(h: Header, q: Question, opt: Option<Record>) {
    && HeaderOk(h) && QuestionOk(q)
    && (opt.Some? ==> opt.value.name == [] && opt.value.rrType == OPT && |opt.value.rdata| < 0x1_0000)
  }

  lemma {:induction false} SimpleMsgOk(h: Header, q: Question, opt: Option<Record>)
    requires SimpleOk(h, q, opt)
    ensures MsgOk(Simple(h, q, opt)) && LabelsFit(q.name)
  {
  }

  function HeadBytes12(h: Header, n: uint16): (b: Bytes)
    ensures |b| == HEADER_SIZE
  {
    Be16(h.id) + Be16(HeaderToBits(h)) + Be16(1) + Be16(0) + Be16(0) + Be16(n)
  }

  function OptBytes(opt: Option<Record>): Bytes {
    if opt.Some? then RootRecord(opt.value.rrClass, opt.value.ttl, opt.value.rdata) else []
  }

  function Encoded(h: Header, q: Question, opt: Option<Record>): (p: Bytes)
    requires LabelsFit(q.name)
  {
    HeadBytes12(h, if opt.Some? then 1 else 0) + EncodeQuestion(q) + OptBytes(opt)
  }

  lemma {:induction false} RootEncoded(rr: Record)
    requires rr.name == [] && rr.rrType == OPT && |rr.rdata| < 0x1_0000
    ensures LabelsFit(rr.name) && EncodeRecord(rr) == OptBytes(Some(rr))
  {
    hide Be16, Be32, FromU16, Canonical;
    assert EncodeName(rr.name) == [0] && ToU16(OPT) == TYPE_OPT;
    hide EncodeName, ToU16;
    RecordRegrouped(Be16(TYPE_OPT), Be16(rr.rrClass), Be32(rr.ttl) + Be16(|rr.rdata|), rr.rdata);
  }

  lemma {:induction false} RecordRegrouped(a: Bytes, b: Bytes, c: Bytes, data: Bytes)
    ensures [0] + ((a + (b + c)) + data) == [0] + a + b + c + data
  {
  }

  lemma {:induction false} PackSimple(h: Header, q: Question, opt: Option<Record>)
    requires SimpleOk(h, q, opt)
    ensures LabelsFit(q.name) && Pack(Simple(h, q, opt)) == Ok(Encoded(h, q, opt))
  {
    hide EncodeQuestion, EncodeRecord, RootRecord, HeaderToBits;
    SimpleMsgOk(h, q, opt);
    var m := Simple(h, q, opt);
    assert m.questions[1..] == [] && EncodeQuestion(q) + [] == EncodeQuestion(q);
    assert PackQuestions(m.questions) == Ok(EncodeQuestion(q));
    var front := EncodeHeader(m) + EncodeQuestion(q);
    assert front + [] + [] == front;
    if opt.Some? {
      RootEncoded(opt.value);
      assert m.additionals[1..] == [] && EncodeRecord(opt.value) + [] == EncodeRecord(opt.value);
      assert PackRecords(m.additionals) == Ok(EncodeRecord(opt.value));
    }
  }

  /** Its layout: the question, then the OPT if there is one, then the end. */
  function SimpleShape(questionEnd: nat, total: nat, opt: bool): Shape {
    Shape(questionEnd, [], questionEnd, if opt then [Span(questionEnd, questionEnd + 1, total)] else [])
  }

  lemma {:induction false} SimpleHeader(p: Bytes, h: Header, n: uint16)
    requires At(p, 0, HeadBytes12(h, n))
    ensures |p| >= 12 && U16(p, 4) == 1 && U16(p, 6) == 0 && U16(p, 8) == 0 && U16(p, 10) == n
  {
    var b := HeadBytes12(h, n);
    assert forall k :: 0 <= k < 12 ==> p[k] == p[0..12][k] == b[k];
  }

  lemma {:induction false} EncodedParts(h: Header, q: Question, opt: Option<Record>)
    requires LabelsFit(q.name)
    ensures var p := Encoded(h, q, opt);
            var qe := 12 + |EncodeQuestion(q)|;
            && At(p, 0, HeadBytes12(h, if opt.Some? then 1 else 0)) && At(p, 12, EncodeQuestion(q))
            && At(p, qe, OptBytes(opt)) && |p| == qe + |OptBytes(opt)|
  {
    hide At, HeadBytes12, EncodeQuestion, OptBytes;
    var p := Encoded(h, q, opt);
    var head := HeadBytes12(h, if opt.Some? then 1 else 0);
    AtWhole(p, p);
    AtParts(p, 0, head + EncodeQuestion(q), OptBytes(opt));
    AtParts(p, 0, head, EncodeQuestion(q));
  }

  /** A root-owned OPT found in the packet, with its class, its TTL and its data. */
  lemma {:induction false} RootStands(p: Bytes, o: nat, size: uint16, ttl: uint32, rdata: Bytes)
    requires |rdata| < 0x1_0000 && At(p, o, RootRecord(size, ttl, rdata))
    ensures var s := Span(o, o + 1, o + 11 + |rdata|);
            && s.In(p) && Stands(p, s) && IsOpt(p, s) && RootOpt(p, s)
            && U16(p, o + 9) == |rdata| && At(p, o + 11, rdata)
  {
    hide At, Be16, Be32;
    var fixed := [0] + Be16(TYPE_OPT) + Be16(size);
    var tail := Be32(ttl) + Be16(|rdata|);
    AtParts(p, o, fixed + tail, rdata);
    AtParts(p, o, fixed, tail);
    AtParts(p, o, [0] + Be16(TYPE_OPT), Be16(size));
    AtParts(p, o, [0], Be16(TYPE_OPT));
    AtByte(p, o, 0);
    AtParts(p, o + 5, Be32(ttl), Be16(|rdata|));
    Be16RoundTrip(p, o + 1, TYPE_OPT);
    Be16RoundTrip(p, o + 9, |rdata|);
    AtSlice(p, o + 9, Be16(|rdata|));
    AtSlice(p, o + 11, rdata);
    assert SkipName(p, o) == Ok(o + 1);
  }

  lemma {:induction false} SimpleLaid(h: Header, q: Question, opt: Option<Record>)
    requires SimpleOk(h, q, opt) && LabelsFit(q.name)
    ensures var p := Encoded(h, q, opt);
            var qe := 12 + |EncodeQuestion(q)|;
            && Laid(p, SimpleShape(qe, |p|, opt.Some?)) && qe <= |p|
            && (opt.Some? ==>
                RootOpt(p, SimpleShape(qe, |p|, true).extra[0])
                && SimpleShape(qe, |p|, true).extra[0].In(p))
  {
    hide At, HeadBytes12, EncodeQuestion, RootRecord, Stands, Walks, QuestionAt, SkipName, IsOpt, QuestionOk, RootOpt;
    var p := Encoded(h, q, opt);
    var qe := 12 + |EncodeQuestion(q)|;
    EncodedParts(h, q, opt);
    SimpleHeader(p, h, if opt.Some? then 1 else 0);
    QuestionEncoded(p, 12, q);
    QuestionStep(p);
    WalksNil(p, qe);
    if opt.Some? {
      var s := Span(qe, qe + 1, |p|);
      RootStands(p, qe, opt.value.rrClass, opt.value.ttl, opt.value.rdata);
      RootLength(opt.value.rrClass, opt.value.ttl, opt.value.rdata);
      WalksNil(p, |p|);
      WalksCons(p, s, [], |p|);
      assert [s] + [] == [s];
    }
    LaidIntro(p, SimpleShape(qe, |p|, opt.Some?));
  }

  lemma {:induction false} RootLength(size: uint16, ttl: uint32, rdata: Bytes)
    ensures |RootRecord(size, ttl, rdata)| == 11 + |rdata|
  {
  }

  // ---------------------------------------------------------------- the two editors on such packets

  /** Setting the payload size gives the packet its OPT, or changes the class of the one it has. */
  lemma {:induction false} SetEdnsSimple(h: Header, q: Question, opt: Option<Record>, size: uint16)
    requires SimpleOk(h, q, opt) && LabelsFit(q.name)
    requires |Encoded(h, q, opt)| <= MAX_PACKET - 11
    ensures SetEdns(Encoded(h, q, opt), size)
         == Edited(Encoded(h, q, Some(if opt.Some? then opt.value.(rrClass := size) else OptRr(size, 0, []))), Ok(()))
  {
    hide Laid, SetEdns, AddSection, Encoded, EncodeQuestion, IsOpt, Put16, OptRecord, RootRecord, SimpleOk;
    var p := Encoded(h, q, opt);
    var qe := 12 + |EncodeQuestion(q)|;
    SimpleLaid(h, q, opt);
    var l := SimpleShape(qe, |p|, opt.Some?);
    if opt.Some? {
      assert OnlyOpt(p, l.extra, 0);
      SetEdnsUpdates(p, l, 0, size);
      ClassPatched(h, q, opt.value, size);
    } else {
      SetEdnsAdds(p, l, size);
      AddSectionLaid(p, l, size);
      assert |l.extra| == 0;
      OkUnit(AddSection(p, size).out);
      OptAppended(h, q, size);
    }
  }

  lemma {:induction false} OkUnit(r: Result<(), DnsError>)
    requires r.Ok?
    ensures r == Ok(())
  {
    assert r.value == ();
  }

  lemma {:induction false} PutMiddle(a: Bytes, x: uint16, c: Bytes, y: uint16)
    ensures Put16(a + Be16(x) + c, |a|, y) == a + Be16(y) + c
  {
  }

  lemma {:induction false} ClassPatched(h: Header, q: Question, opt: Record, size: uint16)
    requires LabelsFit(q.name)
    ensures 12 + |EncodeQuestion(q)| + 5 <= |Encoded(h, q, Some(opt))|
    ensures Put16(Encoded(h, q, Some(opt)), 12 + |EncodeQuestion(q)| + 3, size)
         == Encoded(h, q, Some(opt.(rrClass := size)))
  {
    hide EncodeQuestion, HeadBytes12, Be16, Be32, Put16;
    var front := HeadBytes12(h, 1) + EncodeQuestion(q);
    var a := front + ([0] + Be16(TYPE_OPT));
    var c := (Be32(opt.ttl) + Be16(|opt.rdata| % 0x1_0000)) + opt.rdata;
    assert Encoded(h, q, Some(opt)) == a + Be16(opt.rrClass) + c;
    assert Encoded(h, q, Some(opt.(rrClass := size))) == a + Be16(size) + c;
    PutMiddle(a, opt.rrClass, c, size);
  }

  lemma {:induction false} OptAppended(h: Header, q: Question, size: uint16)
    requires LabelsFit(q.name)
    ensures |Encoded(h, q, None)| >= 12
    ensures Put16(Encoded(h, q, None), 10, 1) + OptRecord(size) == Encoded(h, q, Some(OptRr(size, 0, [])))
  {
    hide EncodeQuestion, Put16, OptRecord, RootRecord;
    var head := Be16(h.id) + Be16(HeaderToBits(h)) + Be16(1) + Be16(0) + Be16(0);
    var rest := EncodeQuestion(q) + [];
    assert Encoded(h, q, None) == head + Be16(0) + rest;
    PutMiddle(head, 0, rest, 1);
    assert head + Be16(1) + rest == HeadBytes12(h, 1) + EncodeQuestion(q);
    RootEmpty(size);
  }

  lemma {:induction false} RootEmpty(size: uint16)
    ensures RootRecord(size, 0, []) == OptRecord(size)
  {
  }

  /** A splice whose place is the end of the packet. */
  lemma {:induction false} SpliceAtEnd(a: Bytes, n: uint16, data: Bytes, more: Bytes, start: nat)
    requires |data| == n && n + |more| < 0x1_0000 && |a| == start + 9
    ensures Spliced(a + Be16(n) + data, start, more) == a + Be16(n + |more|) + (data + more)
  {
    hide Put16;
    var p := a + Be16(n) + data;
    AtWhole(p, p);
    AtParts(p, 0, a + Be16(n), data);
    AtParts(p, 0, a, Be16(n));
    Be16RoundTrip(p, start + 9, n);
    PutMiddle(a, n, data, n + |more|);
    var w := a + Be16(n + |more|) + data;
    assert w[..|p|] == w && w[|p|..] == [];
    assert w + more + [] == w + more;
    ConcatAssoc(a + Be16(n + |more|), data, more);
  }

  lemma {:induction false} SpliceGrows(h: Header, q: Question, opt: Record, more: Bytes)
    requires LabelsFit(q.name) && |opt.rdata| + |more| < 0x1_0000
    ensures var start := 12 + |EncodeQuestion(q)|;
            && start + 11 + |opt.rdata| == |Encoded(h, q, Some(opt))|
            && Spliced(Encoded(h, q, Some(opt)), start, more) == Encoded(h, q, Some(opt.(rdata := opt.rdata + more)))
  {
    hide EncodeQuestion, HeadBytes12, RootRecord, Spliced, Be16, Be32;
    var front := HeadBytes12(h, 1) + EncodeQuestion(q);
    var a := BeforeLength(front, opt.rrClass, opt.ttl, opt.rdata);
    var a' := BeforeLength(front, opt.rrClass, opt.ttl, opt.rdata + more);
    SpliceAtEnd(a, |opt.rdata|, opt.rdata, more, |front|);
  }

  lemma {:induction false} BeforeLength(front: Bytes, size: uint16, ttl: uint32, rdata: Bytes) returns (a: Bytes)
    requires |rdata| < 0x1_0000
    ensures a == front + ([0] + Be16(TYPE_OPT) + Be16(size) + Be32(ttl)) && |a| == |front| + 9
    ensures front + RootRecord(size, ttl, rdata) == a + Be16(|rdata|) + rdata
  {
    hide Be16, Be32;
    a := front + ([0] + Be16(TYPE_OPT) + Be16(size) + Be32(ttl));
  }

  /** An OPT without options gains one option 8; an OPT that holds just an option 8 stays as it is. */
  lemma {:induction false} AddEcsSimple(h: Header, q: Question, opt: Record, ip: IpAddr, prefix4: byte, prefix6: byte,
      data: Bytes)
    requires SimpleOk(h, q, Some(opt)) && LabelsFit(q.name) && |Encoded(h, q, Some(opt))| <= MAX_PACKET
    requires |data| < 0x1_0000 && (opt.rdata == [] || opt.rdata == Option8(data))
    ensures AddEcs(Encoded(h, q, Some(opt)), ip, prefix4, prefix6)
         == if opt.rdata == [] then EcsEdit(Encoded(h, q, Some(opt.(rdata := EcsOption(ip, prefix4, prefix6)))), Done)
            else EcsEdit(Encoded(h, q, Some(opt)), Done)
  {
    hide Laid, AddEcs, Encoded, EncodeQuestion, RootOpt, OptionsAt, HasSubnet, RootRecord, EcsOption, Spliced, At;
    var p := Encoded(h, q, Some(opt));
    var qe := 12 + |EncodeQuestion(q)|;
    SimpleLaid(h, q, Some(opt));
    EncodedParts(h, q, Some(opt));
    RootStands(p, qe, opt.rrClass, opt.ttl, opt.rdata);
    RootLength(opt.rrClass, opt.ttl, opt.rdata);
    var l := SimpleShape(qe, |p|, true);
    assert FirstRootOpt(p, l.extra, 0);
    if opt.rdata == [] {
      OptionHead(p, qe + 11, |p|);
      NoOptions();
      SpliceGrows(h, q, opt, EcsOption(ip, prefix4, prefix6));
      assert opt.rdata + EcsOption(ip, prefix4, prefix6) == EcsOption(ip, prefix4, prefix6);
    } else {
      OneOption(p, qe + 11, OPTION_SUBNET, data);
      HasSubnetAppended([], EdnsOption(OPTION_SUBNET, data));
      assert [] + [EdnsOption(OPTION_SUBNET, data)] == [EdnsOption(OPTION_SUBNET, data)];
    }
    InsertionIs(p, l, 0, ip, prefix4, prefix6);
  }

  // ---------------------------------------------------------------- what is built

  lemma {:induction false} RawIsEncoded(labels: Labels)
    requires LabelsFit(labels)
    ensures RawName(labels) == EncodeName(labels)
    decreases |labels|
  {
    if labels != [] {
      assert labels[0] in labels;
      assert |labels[0]| % 256 == |labels[0]|;
      assert LabelsFit(labels[1..]);
      RawIsEncoded(labels[1..]);
    }
  }

  lemma {:induction false} AskedOk(q: DnsJsonQuery, id: uint16)
    requires NameOk(QueryLabels(q))
    ensures var m := Asked(q, id);
            SimpleOk(m.header, m.questions[0], if m.additionals == [] then None else Some(m.additionals[0]))
  {
    hide NonEmpty, Split, FromU16, Canonical, ClientOption;
    CodeRoundTrip(q.qtype.GetOr(TYPE_A));
  }

  lemma {:induction false} BuiltIsEncoded(q: DnsJsonQuery, id: uint16)
    requires NameOk(QueryLabels(q))
    ensures var m := Asked(q, id);
            LabelsFit(m.questions[0].name)
            && Built(q, id)
               == Encoded(m.header, m.questions[0], if m.additionals == [] then None else Some(m.additionals[0]))
  {
    hide NonEmpty, Split, FromU16, ToU16, RootRecord, EncodeName, RawName;
    var m := Asked(q, id);
    CodeRoundTrip(q.qtype.GetOr(TYPE_A));
    RawIsEncoded(QueryLabels(q));
    HeadBits(q, id, m.header);
    assert QueryHead(q, id) == HeadBytes12(m.header, if WantsOpt(q) then 1 else 0);
  }

  lemma {:induction false} HeadBits(q: DnsJsonQuery, id: uint16, h: Header)
    requires h == Asked(q, id).header
    ensures Be16(HeaderToBits(h)) == [1, if q.cd.GetOr(false) then 0x10 else 0]
  {
  }

  /**
    The built packet unpacks to the message the query stands for if and only if its labels have 1
    to 63 octets and its name fits 255.
   */
  lemma {:induction false} BuiltUnpacksIff(q: DnsJsonQuery, id: uint16)
    ensures Unpack(Built(q, id)) == Ok(Asked(q, id)) <==> NameOk(QueryLabels(q))
  {
    hide Unpack, Pack, Built, QueryLabels, Encoded, FromU16, NameOk;
    if NameOk(QueryLabels(q)) {
      var m := Asked(q, id);
      var opt := if m.additionals == [] then None else Some(m.additionals[0]);
      AskedOk(q, id);
      BuiltIsEncoded(q, id);
      PackSimple(m.header, m.questions[0], opt);
      SimpleMsgOk(m.header, m.questions[0], opt);
      PackThenUnpack(m);
    }
    if Unpack(Built(q, id)) == Ok(Asked(q, id)) {
      UnpackedIsOk(Built(q, id));
      assert Asked(q, id).questions[0] in Asked(q, id).questions;
    }
  }

  // ---------------------------------------------------------------- the pipeline

  datatype Prepared = Incomplete | Sent(bytes: Bytes) | Crashed

  /** What goes upstream; `clientIp` is None when subnet insertion is off or the client unknown. */
  function Prepare(p: Bytes, clientIp: Option<IpAddr>, prefix4: byte, prefix6: byte): Prepared {
    if |p| < MIN_DNS_PACKET_LEN then Incomplete
    else
      var q := SetEdns(p, UDP_SIZE).bytes;
      if clientIp.None? then Sent(q)
      else
        var edit := AddEcs(q, clientIp.value, prefix4, prefix6);
        if edit.outcome.Panicked? then Crashed else Sent(edit.bytes)
  }

  /** Failures of both editors are ignored, as in the source. */
  method PrepareQuery(packet: PacketBuffer, enableEcs: bool, clientIp: Option<IpAddr>, prefix4: byte, prefix6: byte)
    returns (r: Prepared)
    modifies packet
    ensures r == Prepare(old(packet.data), if enableEcs then clientIp else None, prefix4, prefix6)
  {
    hide SetEdns, AddEcs;
    if |packet.data| < MIN_DNS_PACKET_LEN {
      return Incomplete;
    }
    var _ := SetEdnsMaxPayloadSize(packet, UDP_SIZE);
    if enableEcs {
      if clientIp.Some? {
        var outcome := AddEcsToPacket(packet, clientIp.value, prefix4, prefix6);
        if outcome.Panicked? {
          return Crashed;
        }
      }
    }
    return Sent(packet.data);
  }

  function SubnetData(q: DnsJsonQuery, ip: IpAddr, prefix4: byte, prefix6: byte): (data: Bytes)
    ensures |data| <= 20
  {
    if q.subnet.Subnet4? then ClientSubnet(q.subnet) else EcsData(ip, prefix4, prefix6)
  }

  /** The message that should go upstream: the query's own question and one OPT with one subnet option. */
  function Upstream(q: DnsJsonQuery, id: uint16, ip: IpAddr, prefix4: byte, prefix6: byte): Msg {
    Simple(Asked(q, id).header, Asked(q, id).questions[0],
           Some(OptRr(UDP_SIZE, QueryFlags(q), Option8(SubnetData(q, ip, prefix4, prefix6)))))
  }

  lemma {:induction false} EncodedBound(h: Header, q: Question, opt: Option<Record>)
    requires LabelsFit(q.name) && NameOctets(q.name) <= MAX_NAME_OCTETS
    requires opt.Some? ==> |opt.value.rdata| <= 24
    ensures 17 <= |Encoded(h, q, opt)| <= MAX_PACKET - 11
  {
    hide RootRecord;
    EncodedOctets(q.name);
    if opt.Some? {
      RootLength(opt.value.rrClass, opt.value.ttl, opt.value.rdata);
    }
  }

  lemma {:induction false} EncodedOctets(labels: Labels)
    requires LabelsFit(labels)
    ensures |EncodeName(labels)| == NameOctets(labels)
    decreases |labels|
  {
    if labels != [] {
      EncodedOctets(labels[1..]);
    }
  }

  /**
    For every JSON query with labels of 1 to 63 octets and a name of at most 255, what goes upstream
    unpacks to the same question, one OPT, and in it exactly one subnet option: the client's own
    when it gave a valid subnet, else the one made from the client's address.
   */
  lemma {:induction false} JsonQueryReachesUpstream(
    q: DnsJsonQuery, id: uint16, ip: IpAddr, prefix4: byte, prefix6: byte)
    requires NameOk(QueryLabels(q))
    ensures var sent := Prepare(Built(q, id), Some(ip), prefix4, prefix6);
            sent.Sent? && Unpack(sent.bytes) == Ok(Upstream(q, id, ip, prefix4, prefix6))
  {
    hide *;
    Enlarged(q, id);
    SubnetSettled(q, id, ip, prefix4, prefix6);
    SentUnpacks(q, id, ip, prefix4, prefix6);
    PrepareSteps(Built(q, id), ip, prefix4, prefix6);
  }

  /** The question and the header of what was asked. */
  function Framed(q: DnsJsonQuery, id: uint16, opt: Record): Bytes
    requires NameOk(QueryLabels(q))
  {
    Encoded(Asked(q, id).header, Asked(q, id).questions[0], Some(opt))
  }

  lemma {:induction false} PrepareSteps(p: Bytes, ip: IpAddr, prefix4: byte, prefix6: byte)
    requires |p| >= MIN_DNS_PACKET_LEN && AddEcs(SetEdns(p, UDP_SIZE).bytes, ip, prefix4, prefix6).outcome.Done?
    ensures Prepare(p, Some(ip), prefix4, prefix6)
        == Sent(AddEcs(SetEdns(p, UDP_SIZE).bytes, ip, prefix4, prefix6).bytes)
  {
    hide SetEdns, AddEcs;
  }

  /** After the first editor there is one OPT, with the client's option or none. */
  lemma {:induction false} Enlarged(q: DnsJsonQuery, id: uint16)
    requires NameOk(QueryLabels(q))
    ensures |Built(q, id)| >= MIN_DNS_PACKET_LEN
    ensures SetEdns(Built(q, id), UDP_SIZE).bytes
         == Framed(q, id, OptRr(UDP_SIZE, QueryFlags(q), ClientOption(q.subnet)))
  {
    hide Unpack, Pack, Built, QueryLabels, Encoded, FromU16, SetEdns, QuestionOk, NameOk, Option8;
    var m := Asked(q, id);
    var h, question := m.header, m.questions[0];
    var opt := if m.additionals == [] then None else Some(m.additionals[0]);
    AskedOk(q, id);
    BuiltIsEncoded(q, id);
    NameBound(question);
    EncodedBound(h, question, opt);
    SetEdnsSimple(h, question, opt, UDP_SIZE);
    var opt1 := if opt.Some? then opt.value else OptRr(UDP_SIZE, 0, []);
    assert opt.Some? ==> opt.value.(rrClass := UDP_SIZE) == opt.value;
    assert opt1 == OptRr(UDP_SIZE, QueryFlags(q), ClientOption(q.subnet));
  }

  /** After the second there is one option 8 in it. */
  lemma {:induction false} SubnetSettled(q: DnsJsonQuery, id: uint16, ip: IpAddr, prefix4: byte, prefix6: byte)
    requires NameOk(QueryLabels(q))
    ensures AddEcs(Framed(q, id, OptRr(UDP_SIZE, QueryFlags(q), ClientOption(q.subnet))), ip, prefix4, prefix6)
         == EcsEdit(Framed(q, id, OptRr(UDP_SIZE, QueryFlags(q), Option8(SubnetData(q, ip, prefix4, prefix6)))), Done)
  {
    hide QueryLabels, Encoded, FromU16, AddEcs, EcsData, QuestionOk, NameOk;
    var h, question := Asked(q, id).header, Asked(q, id).questions[0];
    var opt := OptRr(UDP_SIZE, QueryFlags(q), ClientOption(q.subnet));
    AskedOk(q, id);
    NameBound(question);
    EncodedBound(h, question, Some(opt));
    AddEcsSimple(h, question, opt, ip, prefix4, prefix6, SubnetData(q, ip, prefix4, prefix6));
    EcsOptionParts(ip, prefix4, prefix6);
  }

  lemma {:induction false} SentUnpacks(q: DnsJsonQuery, id: uint16, ip: IpAddr, prefix4: byte, prefix6: byte)
    requires NameOk(QueryLabels(q))
    ensures Unpack(Framed(q, id, OptRr(UDP_SIZE, QueryFlags(q), Option8(SubnetData(q, ip, prefix4, prefix6)))))
         == Ok(Upstream(q, id, ip, prefix4, prefix6))
  {
    hide Unpack, Pack, QueryLabels, Encoded, FromU16, EcsData, QuestionOk, NameOk, SubnetData;
    var h, question := Asked(q, id).header, Asked(q, id).questions[0];
    var opt := OptRr(UDP_SIZE, QueryFlags(q), Option8(SubnetData(q, ip, prefix4, prefix6)));
    AskedOk(q, id);
    PackSimple(h, question, Some(opt));
    SimpleMsgOk(h, question, Some(opt));
    PackThenUnpack(Upstream(q, id, ip, prefix4, prefix6));
  }

  lemma {:induction false} NameBound(q: Question)
    requires QuestionOk(q)
    ensures LabelsFit(q.name) && NameOctets(q.name) <= MAX_NAME_OCTETS
  {
  }

  /**
    The same against the query's own text and numbers: what goes upstream asks for the dotted name
    given, dots at its end removed, with one OPT of class 4096 that holds one subnet option.
   */
  lemma {:induction false} UpstreamAsksForText(q: DnsJsonQuery, id: uint16, ip: IpAddr, prefix4: byte, prefix6: byte)
    requires NameOk(QueryLabels(q)) && (NoneEmpty(Split(TrimDots(q.name))) || TrimDots(q.name) == [])
    ensures var sent := Prepare(Built(q, id), Some(ip), prefix4, prefix6);
            && sent.Sent? && Unpack(sent.bytes).Ok?
            && var m := Unpack(sent.bytes).value;
            && m.header.id == id && |m.questions| == 1 && |m.additionals| == 1
            && JoinDots(m.questions[0].name) == TrimDots(q.name)
            && ToU16(m.questions[0].qtype) == (match q.qtype case Some(code) => code case None => 1)
            && m.additionals[0].rrType == OPT && m.additionals[0].rrClass == 4096
            && m.additionals[0].rdata
               == match q.subnet
                  case Subnet4(a, b, c, _) => [0, 8, 0, 7, 0, 1, 24, 0, a, b, c]
                  case _ => EcsOption(ip, prefix4, prefix6)
  {
    hide Split, TrimDots, QueryLabels, JoinDots, Prepare, Built, Unpack, ToU16, FromU16, EcsData, NameOk;
    JsonQueryReachesUpstream(q, id, ip, prefix4, prefix6);
    QueryText(q);
    AskedInNumbers(q, id);
  }
}
