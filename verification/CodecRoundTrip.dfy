/** Packing and unpacking are inverse to each other, and exactly when. */
module CodecRoundTrip {
  import opened Wire
  import opened Names
  import opened NameAgreement
  import opened RrTypes
  import opened Messages

  // ---------------------------------------------------------------- well-formed messages

  /** Octets of the uncompressed name, root included. */
  function NameOctets(labels: Labels): nat {
    if labels == [] then 1 else 1 + |labels[0]| + NameOctets(labels[1..])
  }

  predicate NameOk(labels: Labels) {
    (forall l :: l in labels ==> 1 <= |l| < 0x40) && NameOctets(labels) <= MAX_NAME_OCTETS
  }

  predicate QuestionOk(q: Question) {
    NameOk(q.name) && Canonical(q.qtype)
  }

  predicate RecordOk(rr: Record) {
    NameOk(rr.name) && Canonical(rr.rrType) && |rr.rdata| < 0x1_0000
  }

  predicate RecordsOk(rrs: seq<Record>) {
    forall rr :: rr in rrs ==> RecordOk(rr)
  }

  predicate MsgOk(m: Msg) {
    && HeaderOk(m.header) && !m.compress && CountsFit(m)
    && (forall q :: q in m.questions ==> QuestionOk(q))
    && RecordsOk(m.answers) && RecordsOk(m.authorities) && RecordsOk(m.additionals)
  }

  // ---------------------------------------------------------------- decoding an encoding

  lemma {:induction false} RootAt(p: Bytes, o: nat, labels: Labels)
    requires labels == [] && At(p, o, EncodeName(labels))
    ensures o < |p| && p[o] == 0 && |EncodeName(labels)| == 1
  {
    hide At;
    AtByte(p, o, 0);
  }

  /** The length octet and the octets of the first label, and the rest of the name behind them. */
  lemma {:induction false} FirstLabelAt(p: Bytes, o: nat, labels: Labels)
    requires labels != [] && LabelsFit(labels) && At(p, o, EncodeName(labels))
    ensures var l := labels[0];
            var end := o + 1 + |l|;
            && end <= |p| && p[o] == |l| && p[o + 1..end] == l
            && LabelsFit(labels[1..]) && At(p, end, EncodeName(labels[1..]))
            && |EncodeName(labels)| == 1 + |l| + |EncodeName(labels[1..])|
  {
    hide At;
    var l := labels[0];
    var rest := EncodeName(labels[1..]);
    AtParts(p, o, [|l|] + l, rest);
    AtParts(p, o, [|l|], l);
    AtByte(p, o, |l|);
    AtSlice(p, o + 1, l);
  }

  lemma {:induction false} DecodeEncoded(p: Bytes, o: nat, labels: Labels, ptrs: nat, wlen: nat)
    requires ptrs <= MAX_POINTERS && wlen > 0
    requires forall l :: l in labels ==> 1 <= |l| < 0x40
    requires wlen + NameOctets(labels) - 1 <= MAX_NAME_OCTETS
    requires At(p, o, EncodeName(labels))
    ensures Decode(p, o, ptrs, wlen) == Ok(Decoded(labels, o + |EncodeName(labels)|))
    decreases |labels|
  {
    hide At, EncodeName;
    if labels == [] {
      RootAt(p, o, labels);
      return;
    }
    var l := labels[0];
    FirstLabelAt(p, o, labels);
    DecodeEncoded(p, o + 1 + |l|, labels[1..], ptrs, wlen + 1 + |l|);
    assert [l] + labels[1..] == labels;
  }

  lemma {:induction false} PlainEncoded(p: Bytes, o: nat, labels: Labels)
    requires (forall l :: l in labels ==> 1 <= |l| < 0x40) && At(p, o, EncodeName(labels))
    ensures Skip(p, o).Ok? && !EndsInPointer(p, o)
    decreases |labels|
  {
    hide At, EncodeName;
    if labels == [] {
      RootAt(p, o, labels);
    } else {
      FirstLabelAt(p, o, labels);
      PlainEncoded(p, o + 1 + |labels[0]|, labels[1..]);
    }
  }

  lemma {:induction false} NameEncoded(p: Bytes, o: nat, labels: Labels)
    requires NameOk(labels) && At(p, o, EncodeName(labels))
    ensures DecodeName(p, o) == Ok(Decoded(labels, o + |EncodeName(labels)|))
    ensures Skip(p, o).Ok? && !EndsInPointer(p, o)
  {
    DecodeEncoded(p, o, labels, 0, 1);
    PlainEncoded(p, o, labels);
  }

  lemma {:induction false} FixedEncoded(p: Bytes, o: nat, rr: Record)
    requires |rr.rdata| < 0x1_0000 && Canonical(rr.rrType) && At(p, o, EncodeFixed(rr))
    ensures FromU16(U16(p, o)) == rr.rrType && U16(p, o + 2) == rr.rrClass
    ensures U32(p, o + 4) == rr.ttl && U16(p, o + 8) == |rr.rdata|
  {
    var length := Be16(|rr.rdata|);
    AtParts(p, o, Be16(ToU16(rr.rrType)), Be16(rr.rrClass) + (Be32(rr.ttl) + length));
    AtParts(p, o + 2, Be16(rr.rrClass), Be32(rr.ttl) + length);
    AtParts(p, o + 4, Be32(rr.ttl), length);
    Be16RoundTrip(p, o, ToU16(rr.rrType));
    Be16RoundTrip(p, o + 2, rr.rrClass);
    Be32RoundTrip(p, o + 4, rr.ttl);
    Be16RoundTrip(p, o + 8, |rr.rdata|);
    TypeRoundTrip(rr.rrType);
  }

  lemma {:induction false} RecordEncoded(p: Bytes, o: nat, rr: Record)
    requires RecordOk(rr) && At(p, o, EncodeRecord(rr))
    ensures RecordAt(p, o) == Ok((rr, o + |EncodeRecord(rr)|))
    ensures Skip(p, o).Ok? && !EndsInPointer(p, o)
  {
    hide At, FromU16, ToU16, Canonical, EncodeName, EncodeFixed, Decode, Skip, EndsInPointer, NameOctets;
    var name := EncodeName(rr.name);
    AtParts(p, o, name, EncodeFixed(rr) + rr.rdata);
    AtParts(p, o + |name|, EncodeFixed(rr), rr.rdata);
    AtSlice(p, o + |name|, EncodeFixed(rr));
    AtSlice(p, o + |name| + 10, rr.rdata);
    NameEncoded(p, o, rr.name);
    FixedEncoded(p, o + |name|, rr);
  }

  lemma {:induction false} QuestionEncoded(p: Bytes, o: nat, q: Question)
    requires QuestionOk(q) && At(p, o, EncodeQuestion(q))
    ensures QuestionAt(p, o) == Ok((q, o + |EncodeQuestion(q)|))
    ensures Skip(p, o).Ok? && !EndsInPointer(p, o)
  {
    hide FromU16, ToU16, Canonical, At, EncodeName;
    var next := o + |EncodeName(q.name)|;
    AtSlice(p, o, EncodeQuestion(q));
    AtParts(p, o, EncodeName(q.name), Be16(ToU16(q.qtype)) + Be16(q.qclass));
    AtParts(p, next, Be16(ToU16(q.qtype)), Be16(q.qclass));
    NameEncoded(p, o, q.name);
    Be16RoundTrip(p, next, ToU16(q.qtype));
    Be16RoundTrip(p, next + 2, q.qclass);
    TypeRoundTrip(q.qtype);
  }

  // ---------------------------------------------------------------- sections

  /** No owner name among the `n` records at `o` uses a compression pointer. */
  predicate PlainRecords(p: Bytes, o: nat, n: nat)
    requires Section(p, o, n).Ok?
    decreases n
  {
    n == 0 || (PlainName(p, o) && PlainRecords(p, RecordAt(p, o).value.1, n - 1))
  }

  predicate PlainName(p: Bytes, o: nat) {
    Skip(p, o).Ok? && !EndsInPointer(p, o)
  }

  predicate PlainQuestions(p: Bytes, o: nat, n: nat)
    requires Questions(p, o, n).Ok?
    decreases n
  {
    n == 0 || (PlainName(p, o) && PlainQuestions(p, QuestionAt(p, o).value.1, n - 1))
  }

  lemma {:induction false} SectionEncoded(p: Bytes, o: nat, rrs: seq<Record>, b: Bytes)
    requires RecordsOk(rrs) && PackRecords(rrs) == Ok(b) && At(p, o, b)
    ensures Section(p, o, |rrs|) == Ok((rrs, o + |b|))
    ensures PlainRecords(p, o, |rrs|)
    decreases |rrs|
  {
    hide At, EncodeRecord, RecordAt, RecordOk;
    if rrs != [] {
      var first := EncodeRecord(rrs[0]);
      var rest := PackRecords(rrs[1..]).value;
      AtParts(p, o, first, rest);
      RecordEncoded(p, o, rrs[0]);
      SectionEncoded(p, o + |first|, rrs[1..], rest);
      assert [rrs[0]] + rrs[1..] == rrs;
    }
  }

  lemma {:induction false} QuestionsEncoded(p: Bytes, o: nat, qs: seq<Question>, b: Bytes)
    requires forall q :: q in qs ==> QuestionOk(q)
    requires PackQuestions(qs) == Ok(b) && At(p, o, b)
    ensures Questions(p, o, |qs|) == Ok((qs, o + |b|))
    ensures PlainQuestions(p, o, |qs|)
    decreases |qs|
  {
    hide At, EncodeQuestion, QuestionAt, QuestionOk;
    if qs != [] {
      var first := EncodeQuestion(qs[0]);
      var rest := PackQuestions(qs[1..]).value;
      AtParts(p, o, first, rest);
      QuestionEncoded(p, o, qs[0]);
      QuestionsEncoded(p, o + |first|, qs[1..], rest);
      assert [qs[0]] + qs[1..] == qs;
    }
  }

  lemma {:induction false} RecordsPack(rrs: seq<Record>)
    requires RecordsOk(rrs)
    ensures PackRecords(rrs).Ok?
    decreases |rrs|
  {
    if rrs != [] {
      assert RecordOk(rrs[0]);
      RecordsPack(rrs[1..]);
    }
  }

  lemma {:induction false} QuestionsPack(qs: seq<Question>)
    requires forall q :: q in qs ==> QuestionOk(q)
    ensures PackQuestions(qs).Ok?
    decreases |qs|
  {
    if qs != [] {
      assert QuestionOk(qs[0]);
      QuestionsPack(qs[1..]);
    }
  }

  lemma {:induction false} HeaderEncoded(p: Bytes, m: Msg)
    requires CountsFit(m) && HeaderOk(m.header) && At(p, 0, EncodeHeader(m))
    ensures HeaderFromBits(U16(p, 0), U16(p, 2)) == m.header
    ensures U16(p, 4) == |m.questions| && U16(p, 6) == |m.answers|
    ensures U16(p, 8) == |m.authorities| && U16(p, 10) == |m.additionals|
  {
    var h := EncodeHeader(m);
    assert forall k :: 0 <= k < 12 ==> p[k] == p[0..12][k] == h[k];
    HeaderRoundTrip(m.header);
  }

  /** The compression pointers of an accepted packet, all of them absent. */
  predicate Uncompressed(p: Bytes)
    requires Unpack(p).Ok?
  {
    var o1 := Questions(p, HEADER_SIZE, U16(p, 4)).value.1;
    var o2 := Section(p, o1, U16(p, 6)).value.1;
    var o3 := Section(p, o2, U16(p, 8)).value.1;
    && PlainQuestions(p, HEADER_SIZE, U16(p, 4)) && PlainRecords(p, o1, U16(p, 6))
    && PlainRecords(p, o2, U16(p, 8)) && PlainRecords(p, o3, U16(p, 10))
  }

  /** Decoding what the encoder wrote gives the message back, for every well-formed message. */
  lemma {:induction false} PackThenUnpack(m: Msg)
    requires MsgOk(m)
    ensures Pack(m).Ok? && Unpack(Pack(m).value) == Ok(m) && Uncompressed(Pack(m).value)
  {
    hide At, EncodeHeader, PackRecords, PackQuestions, Questions, Section, PlainQuestions, PlainRecords,
      HeaderFromBits, HeaderToBits, RecordsOk;
    QuestionsPack(m.questions);
    RecordsPack(m.answers);
    RecordsPack(m.authorities);
    RecordsPack(m.additionals);
    var h := EncodeHeader(m);
    var q := PackQuestions(m.questions).value;
    var an := PackRecords(m.answers).value;
    var ns := PackRecords(m.authorities).value;
    var ar := PackRecords(m.additionals).value;
    var p := Pack(m).value;
    assert p == h + q + an + ns + ar;
    AtWhole(p, p);
    AtParts(p, 0, h + q + an + ns, ar);
    AtParts(p, 0, h + q + an, ns);
    AtParts(p, 0, h + q, an);
    AtParts(p, 0, h, q);
    HeaderEncoded(p, m);
    QuestionsEncoded(p, 12, m.questions, q);
    SectionEncoded(p, 12 + |q|, m.answers, an);
    SectionEncoded(p, 12 + |q| + |an|, m.authorities, ns);
    SectionEncoded(p, 12 + |q| + |an| + |ns|, m.additionals, ar);
  }

  // ---------------------------------------------------------------- what unpack produces

  lemma {:induction false} DecodedNameOk(p: Bytes, cur: nat, ptrs: nat, wlen: nat)
    requires ptrs <= MAX_POINTERS && 0 < wlen <= MAX_NAME_OCTETS && Decode(p, cur, ptrs, wlen).Ok?
    ensures var labels := Decode(p, cur, ptrs, wlen).value.labels;
            (forall l :: l in labels ==> 1 <= |l| < 0x40) && wlen + NameOctets(labels) - 1 <= MAX_NAME_OCTETS
    decreases MAX_POINTERS - ptrs, |p| - cur
  {
    if p[cur] >= 0xC0 {
      DecodedNameOk(p, PointerTarget(p, cur), ptrs + 1, wlen);
    } else if p[cur] != 0 {
      var end := cur + 1 + p[cur] as int;
      DecodedNameOk(p, end, ptrs, wlen + 1 + p[cur] as int);
      var rest := Decode(p, end, ptrs, wlen + 1 + p[cur] as int).value.labels;
      assert ([p[cur + 1..end]] + rest)[1..] == rest;
    }
  }

  lemma {:induction false} SectionOk(p: Bytes, o: nat, n: nat)
    requires Section(p, o, n).Ok?
    ensures RecordsOk(Section(p, o, n).value.0)
    decreases n
  {
    if n > 0 {
      DecodedNameOk(p, o, 0, 1);
      CodeRoundTrip(U16(p, DecodeName(p, o).value.next));
      SectionOk(p, RecordAt(p, o).value.1, n - 1);
    }
  }

  lemma {:induction false} QuestionsOk(p: Bytes, o: nat, n: nat)
    requires Questions(p, o, n).Ok?
    ensures forall q :: q in Questions(p, o, n).value.0 ==> QuestionOk(q)
    decreases n
  {
    if n > 0 {
      DecodedNameOk(p, o, 0, 1);
      CodeRoundTrip(U16(p, DecodeName(p, o).value.next));
      QuestionsOk(p, QuestionAt(p, o).value.1, n - 1);
    }
  }

  /** Every message the decoder returns is well formed, so packing and unpacking it changes nothing. */
  lemma {:induction false} UnpackedIsOk(p: Bytes)
    requires Unpack(p).Ok?
    ensures var m := Unpack(p).value; MsgOk(m) && Pack(m).Ok? && Unpack(Pack(m).value) == Ok(m)
  {
    var o1 := Questions(p, HEADER_SIZE, U16(p, 4)).value.1;
    var o2 := Section(p, o1, U16(p, 6)).value.1;
    var o3 := Section(p, o2, U16(p, 8)).value.1;
    QuestionsOk(p, HEADER_SIZE, U16(p, 4));
    SectionOk(p, o1, U16(p, 6));
    SectionOk(p, o2, U16(p, 8));
    SectionOk(p, o3, U16(p, 10));
    PackThenUnpack(Unpack(p).value);
  }

  // ---------------------------------------------------------------- re-encoding a packet

  lemma {:induction false} PlainNameEncoded(p: Bytes, o: nat, ptrs: nat, wlen: nat)
    requires ptrs <= MAX_POINTERS && Decode(p, o, ptrs, wlen).Ok? && PlainName(p, o)
    ensures var Decoded(labels, next) := Decode(p, o, ptrs, wlen).value;
            LabelsFit(labels) && At(p, o, EncodeName(labels)) && next == o + |EncodeName(labels)|
    decreases |p| - o
  {
    hide At;
    AtByte(p, o, p[o]);
    if p[o] != 0 {
      var end := o + 1 + p[o] as int;
      var l := p[o + 1..end];
      PlainNameEncoded(p, end, ptrs, wlen + 1 + p[o] as int);
      var rest := Decode(p, end, ptrs, wlen + 1 + p[o] as int).value.labels;
      assert ([l] + rest)[1..] == rest;
      AtSlice(p, o + 1, l);
      AtParts(p, o, [|l|], l);
      AtParts(p, o, [|l|] + l, EncodeName(rest));
    }
  }

  lemma {:induction false} PlainRecordEncoded(p: Bytes, o: nat)
    requires RecordAt(p, o).Ok? && PlainName(p, o)
    ensures var (rr, next) := RecordAt(p, o).value;
            RecordFits(rr) && At(p, o, EncodeRecord(rr)) && next == o + |EncodeRecord(rr)|
  {
    hide At, FromU16, ToU16, Canonical;
    var (rr, end) := RecordAt(p, o).value;
    var next := DecodeName(p, o).value.next;
    PlainNameEncoded(p, o, 0, 1);
    CodeRoundTrip(U16(p, next));
    U16RoundTrip(p, next);
    U16RoundTrip(p, next + 2);
    U32RoundTrip(p, next + 4);
    U16RoundTrip(p, next + 8);
    var length := Be16(|rr.rdata|);
    AtSlice(p, next + 10, rr.rdata);
    AtParts(p, next + 4, Be32(rr.ttl), length);
    AtParts(p, next + 2, Be16(rr.rrClass), Be32(rr.ttl) + length);
    AtParts(p, next, Be16(ToU16(rr.rrType)), Be16(rr.rrClass) + (Be32(rr.ttl) + length));
    AtParts(p, next, EncodeFixed(rr), rr.rdata);
    AtParts(p, o, EncodeName(rr.name), EncodeFixed(rr) + rr.rdata);
  }

  lemma {:induction false} PlainSectionEncoded(p: Bytes, o: nat, n: nat)
    requires o <= |p| && Section(p, o, n).Ok? && PlainRecords(p, o, n)
    ensures var (rrs, end) := Section(p, o, n).value;
            PackRecords(rrs).Ok? && At(p, o, PackRecords(rrs).value) && end == o + |PackRecords(rrs).value|
    decreases n
  {
    hide At, EncodeRecord, RecordAt;
    if n > 0 {
      var (rr, next) := RecordAt(p, o).value;
      var rest := Section(p, next, n - 1).value.0;
      PlainRecordEncoded(p, o);
      PlainSectionEncoded(p, next, n - 1);
      assert ([rr] + rest)[1..] == rest;
      AtParts(p, o, EncodeRecord(rr), PackRecords(rest).value);
    } else {
      AtSlice(p, o, []);
    }
  }

  lemma {:induction false} PlainQuestionEncoded(p: Bytes, o: nat)
    requires QuestionAt(p, o).Ok? && PlainName(p, o)
    ensures var (q, next) := QuestionAt(p, o).value;
            LabelsFit(q.name) && At(p, o, EncodeQuestion(q)) && next == o + |EncodeQuestion(q)|
  {
    hide At, FromU16, ToU16, Canonical;
    var q := QuestionAt(p, o).value.0;
    var next := DecodeName(p, o).value.next;
    PlainNameEncoded(p, o, 0, 1);
    CodeRoundTrip(U16(p, next));
    U16RoundTrip(p, next);
    U16RoundTrip(p, next + 2);
    AtParts(p, next, Be16(ToU16(q.qtype)), Be16(q.qclass));
    AtParts(p, o, EncodeName(q.name), Be16(ToU16(q.qtype)) + Be16(q.qclass));
  }

  lemma {:induction false} PlainQuestionsEncoded(p: Bytes, o: nat, n: nat)
    requires o <= |p| && Questions(p, o, n).Ok? && PlainQuestions(p, o, n)
    ensures var (qs, end) := Questions(p, o, n).value;
            PackQuestions(qs).Ok? && At(p, o, PackQuestions(qs).value) && end == o + |PackQuestions(qs).value|
    decreases n
  {
    hide At, EncodeQuestion, QuestionAt;
    if n > 0 {
      var (q, next) := QuestionAt(p, o).value;
      var rest := Questions(p, next, n - 1).value.0;
      PlainQuestionEncoded(p, o);
      PlainQuestionsEncoded(p, next, n - 1);
      assert ([q] + rest)[1..] == rest;
      AtParts(p, o, EncodeQuestion(q), PackQuestions(rest).value);
    } else {
      AtSlice(p, o, []);
    }
  }

  lemma {:induction false} HeaderReencoded(p: Bytes, m: Msg)
    requires |p| >= HEADER_SIZE && CountsFit(m) && m.header == HeaderFromBits(U16(p, 0), U16(p, 2))
    requires |m.questions| == U16(p, 4) && |m.answers| == U16(p, 6)
    requires |m.authorities| == U16(p, 8) && |m.additionals| == U16(p, 10)
    ensures At(p, 0, EncodeHeader(m))
  {
    BitsRoundTrip(U16(p, 0), U16(p, 2));
    var a := Be16(U16(p, 0));
    var b := a + Be16(U16(p, 2));
    var c := b + Be16(U16(p, 4));
    var d := c + Be16(U16(p, 6));
    var e := d + Be16(U16(p, 8));
    U16RoundTrip(p, 0);
    U16RoundTrip(p, 2);
    U16RoundTrip(p, 4);
    U16RoundTrip(p, 6);
    U16RoundTrip(p, 8);
    U16RoundTrip(p, 10);
    AtParts(p, 0, a, Be16(U16(p, 2)));
    AtParts(p, 0, b, Be16(U16(p, 4)));
    AtParts(p, 0, c, Be16(U16(p, 6)));
    AtParts(p, 0, d, Be16(U16(p, 8)));
    AtParts(p, 0, e, Be16(U16(p, 10)));
  }

  lemma {:induction false} UncompressedReencodes(p: Bytes)
    requires Unpack(p).Ok? && Uncompressed(p)
    ensures Pack(Unpack(p).value) == Ok(p)
  {
    hide At, EncodeHeader, PackRecords, PackQuestions, Questions, Section, PlainQuestions, PlainRecords,
      HeaderFromBits, HeaderToBits;
    var m := Unpack(p).value;
    var o1 := Questions(p, HEADER_SIZE, U16(p, 4)).value.1;
    var o2 := Section(p, o1, U16(p, 6)).value.1;
    var o3 := Section(p, o2, U16(p, 8)).value.1;
    HeaderReencoded(p, m);
    PlainQuestionsEncoded(p, HEADER_SIZE, U16(p, 4));
    PlainSectionEncoded(p, o1, U16(p, 6));
    PlainSectionEncoded(p, o2, U16(p, 8));
    PlainSectionEncoded(p, o3, U16(p, 10));
    var h := EncodeHeader(m);
    var q := PackQuestions(m.questions).value;
    var an := PackRecords(m.answers).value;
    var ns := PackRecords(m.authorities).value;
    var ar := PackRecords(m.additionals).value;
    AtParts(p, 0, h, q);
    AtParts(p, 0, h + q, an);
    AtParts(p, 0, h + q + an, ns);
    AtParts(p, 0, h + q + an + ns, ar);
    AtWhole(p, h + q + an + ns + ar);
  }

  /** Re-encoding an accepted packet reproduces it byte for byte iff it uses no compression pointer. */
  lemma {:induction false} UnpackThenPack(p: Bytes)
    requires Unpack(p).Ok?
    ensures Pack(Unpack(p).value) == Ok(p) <==> Uncompressed(p)
  {
    UnpackedIsOk(p);
    PackThenUnpack(Unpack(p).value);
    if Uncompressed(p) {
      UncompressedReencodes(p);
    }
  }
}
