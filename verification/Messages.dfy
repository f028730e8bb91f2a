/** The message codec: Msg::unpack and Msg::pack (sections 4.1.1 to 4.1.3 of RFC 1035). */
module Messages {
  import opened Wire
  import opened Names
  import opened RrTypes

  datatype Header = Header(
    id: uint16, response: bool, opcode: byte, authoritative: bool, truncated: bool,
    recursionDesired: bool, recursionAvailable: bool, zero: bool, authenticatedData: bool,
    checkingDisabled: bool, rcode: byte)

  datatype Question = Question(name: Labels, qtype: RrType, qclass: uint16)

  datatype Record = Record(name: Labels, rrType: RrType, rrClass: uint16, ttl: uint32, rdata: Bytes)

  datatype Msg = Msg(
    header: Header, compress: bool, questions: seq<Question>,
    answers: seq<Record>, authorities: seq<Record>, additionals: seq<Record>)

  // ---------------------------------------------------------------- header bits

  function Digit(on: bool): nat {
    if on then 1 else 0
  }

  /** The flag word's first octet: QR, OPCODE, AA, TC, RD; its second: RA, Z, AD, CD, RCODE. */
  function HeaderFromBits(id: uint16, bits: uint16): Header {
    var hi := bits / 256;
    var lo := bits % 256;
    Header(id, hi / 128 == 1, hi / 8 % 16, hi / 4 % 2 == 1, hi / 2 % 2 == 1, hi % 2 == 1,
           lo / 128 == 1, lo / 64 % 2 == 1, lo / 32 % 2 == 1, lo / 16 % 2 == 1, lo % 16)
  }

  function HighOctet(h: Header): byte {
    Digit(h.response) * 128 + h.opcode % 16 * 8 + Digit(h.authoritative) * 4
    + Digit(h.truncated) * 2 + Digit(h.recursionDesired)
  }

  function LowOctet(h: Header): byte {
    Digit(h.recursionAvailable) * 128 + Digit(h.zero) * 64 + Digit(h.authenticatedData) * 32
    + Digit(h.checkingDisabled) * 16 + h.rcode % 16
  }

  /** Every field has bits of its own, so the source's `|=` of a field is an addition. */
  function HeaderToBits(h: Header): uint16 {
    HighOctet(h) * 256 + LowOctet(h)
  }

  predicate HeaderOk(h: Header) {
    h.opcode < 16 && h.rcode < 16
  }

  lemma {:induction false} HighDigits(b: byte)
    ensures b == b / 128 * 128 + b / 8 % 16 * 8 + b / 4 % 2 * 4 + b / 2 % 2 * 2 + b % 2
  {
    assert b == 2 * (b / 2) + b % 2;
    assert b / 2 == 2 * (b / 4) + b / 2 % 2;
    assert b / 4 == 2 * (b / 8) + b / 4 % 2;
    assert b / 8 == 16 * (b / 128) + b / 8 % 16;
  }

  lemma {:induction false} LowDigits(b: byte)
    ensures b == b / 128 * 128 + b / 64 % 2 * 64 + b / 32 % 2 * 32 + b / 16 % 2 * 16 + b % 16
  {
    assert b == 16 * (b / 16) + b % 16;
    assert b / 16 == 2 * (b / 32) + b / 16 % 2;
    assert b / 32 == 2 * (b / 64) + b / 32 % 2;
    assert b / 64 == 2 * (b / 128) + b / 64 % 2;
  }

  lemma {:induction false} HighOctetOf(h: Header, hi: byte)
    requires h.response == (hi / 128 == 1) && h.opcode == hi / 8 % 16 && h.authoritative == (hi / 4 % 2 == 1)
    requires h.truncated == (hi / 2 % 2 == 1) && h.recursionDesired == (hi % 2 == 1)
    ensures HighOctet(h) == hi
  {
    HighDigits(hi);
    assert Digit(h.response) == hi / 128;
    assert Digit(h.authoritative) == hi / 4 % 2;
    assert Digit(h.truncated) == hi / 2 % 2;
  }

  lemma {:induction false} LowOctetOf(h: Header, lo: byte)
    requires h.recursionAvailable == (lo / 128 == 1) && h.zero == (lo / 64 % 2 == 1)
    requires h.authenticatedData == (lo / 32 % 2 == 1) && h.checkingDisabled == (lo / 16 % 2 == 1)
    requires h.rcode == lo % 16
    ensures LowOctet(h) == lo
  {
    LowDigits(lo);
    assert Digit(h.recursionAvailable) == lo / 128;
    assert Digit(h.zero) == lo / 64 % 2;
    assert Digit(h.authenticatedData) == lo / 32 % 2;
  }

  lemma {:induction false} BitsRoundTrip(id: uint16, bits: uint16)
    ensures HeaderToBits(HeaderFromBits(id, bits)) == bits
  {
    HighOctetOf(HeaderFromBits(id, bits), bits / 256);
    LowOctetOf(HeaderFromBits(id, bits), bits % 256);
  }

  lemma {:induction false} Half(n: nat, half: nat, bit: nat)
    requires n == half * 2 + bit && bit < 2
    ensures n / 2 == half && n % 2 == bit
  {
  }

  lemma {:induction false} Shifts(n: nat)
    ensures n / 4 == n / 2 / 2 && n / 8 == n / 4 / 2 && n / 128 == n / 8 / 16
    ensures n / 32 == n / 16 / 2 && n / 64 == n / 32 / 2 && n / 128 == n / 64 / 2
  {
  }

  lemma {:induction false} HighOctetRoundTrip(h: Header)
    requires HeaderOk(h)
    ensures var hi := HighOctet(h);
            && (hi / 128 == 1) == h.response && hi / 8 % 16 == h.opcode && (hi / 4 % 2 == 1) == h.authoritative
            && (hi / 2 % 2 == 1) == h.truncated && (hi % 2 == 1) == h.recursionDesired
  {
    var top := Digit(h.response) * 16 + h.opcode;
    var three := top * 2 + Digit(h.authoritative);
    var two := three * 2 + Digit(h.truncated);
    Half(HighOctet(h), two, Digit(h.recursionDesired));
    Half(two, three, Digit(h.truncated));
    Half(three, top, Digit(h.authoritative));
    Shifts(HighOctet(h));
    assert top / 16 == Digit(h.response) && top % 16 == h.opcode;
  }

  lemma {:induction false} LowOctetRoundTrip(h: Header)
    requires HeaderOk(h)
    ensures var lo := LowOctet(h);
            && (lo / 128 == 1) == h.recursionAvailable && (lo / 64 % 2 == 1) == h.zero
            && (lo / 32 % 2 == 1) == h.authenticatedData && (lo / 16 % 2 == 1) == h.checkingDisabled
            && lo % 16 == h.rcode
  {
    var two := Digit(h.recursionAvailable) * 2 + Digit(h.zero);
    var three := two * 2 + Digit(h.authenticatedData);
    var top := three * 2 + Digit(h.checkingDisabled);
    assert LowOctet(h) == top * 16 + h.rcode;
    Half(top, three, Digit(h.checkingDisabled));
    Half(three, two, Digit(h.authenticatedData));
    Half(two, Digit(h.recursionAvailable), Digit(h.zero));
    Shifts(LowOctet(h));
    assert LowOctet(h) / 16 == top && LowOctet(h) % 16 == h.rcode;
  }

  lemma {:induction false} HeaderRoundTrip(h: Header)
    ensures HeaderFromBits(h.id, HeaderToBits(h)) == h <==> HeaderOk(h)
  {
    if HeaderOk(h) {
      HighOctetRoundTrip(h);
      LowOctetRoundTrip(h);
      assert HeaderToBits(h) / 256 == HighOctet(h) && HeaderToBits(h) % 256 == LowOctet(h);
    }
  }

  /** Where each field of the flag word stands (section 4.1.1 of RFC 1035). */
  lemma {:induction false} FlagWord(id: uint16, bits: uint16)
    ensures var h := HeaderFromBits(id, bits);
            && h.id == id && h.response == (bits >= 0x8000) && h.opcode == bits / 0x0800 % 16
            && h.authoritative == (bits / 0x0400 % 2 == 1) && h.truncated == (bits / 0x0200 % 2 == 1)
            && h.recursionDesired == (bits / 0x0100 % 2 == 1) && h.recursionAvailable == (bits / 0x0080 % 2 == 1)
            && h.zero == (bits / 0x0040 % 2 == 1) && h.authenticatedData == (bits / 0x0020 % 2 == 1)
            && h.checkingDisabled == (bits / 0x0010 % 2 == 1) && h.rcode == bits % 16
  {
    var hi := bits / 256;
    var lo := bits % 256;
    assert hi / 8 == bits / 0x0800 && hi / 4 == bits / 0x0400 && hi / 2 == bits / 0x0200;
    LowBits(hi, lo);
    assert bits == hi * 256 + lo;
  }

  lemma {:induction false} LowBits(hi: nat, lo: nat)
    requires lo < 256
    ensures (hi * 256 + lo) / 0x80 % 2 == lo / 128 && (hi * 256 + lo) / 0x40 % 2 == lo / 64 % 2
    ensures (hi * 256 + lo) / 0x20 % 2 == lo / 32 % 2 && (hi * 256 + lo) / 0x10 % 2 == lo / 16 % 2
    ensures (hi * 256 + lo) % 16 == lo % 16
  {
    LowBitsDivided(hi, lo);
    Even(hi, lo / 0x80);
    Even(hi * 2, lo / 0x40);
    Even(hi * 4, lo / 0x20);
    Even(hi * 8, lo / 0x10);
  }

  lemma {:induction false} Even(n: nat, bits: nat)
    ensures (n * 2 + bits) % 2 == bits % 2
  {
  }

  lemma {:induction false} LowBitsDivided(hi: nat, lo: nat)
    requires lo < 256
    ensures (hi * 256 + lo) / 0x80 == hi * 2 + lo / 0x80 && (hi * 256 + lo) / 0x40 == hi * 4 + lo / 0x40
    ensures (hi * 256 + lo) / 0x20 == hi * 8 + lo / 0x20 && (hi * 256 + lo) / 0x10 == hi * 16 + lo / 0x10
    ensures (hi * 256 + lo) % 16 == lo % 16
  {
  }

  // ---------------------------------------------------------------- unpack

  function QuestionAt(p: Bytes, o: nat): (r: Result<(Question, nat), MsgError>)
    ensures r.Ok? ==> o + 5 <= r.value.1 <= |p|
  {
    var Decoded(name, next) :- DecodeName(p, o);
    if |p| - next < 4 then Err(ShortPacket) else
      Ok((Question(name, FromU16(U16(p, next)), U16(p, next + 2)), next + 4))
  }

  function Questions(p: Bytes, o: nat, n: nat): (r: Result<(seq<Question>, nat), MsgError>)
    ensures r.Ok? ==> |r.value.0| == n && o <= r.value.1
    ensures r.Ok? && o <= |p| ==> r.value.1 <= |p|
    decreases n
  {
    if n == 0 then Ok(([], o)) else
      var (q, next) :- QuestionAt(p, o);
      var (rest, end) :- Questions(p, next, n - 1);
      Ok(([q] + rest, end))
  }

  function RecordAt(p: Bytes, o: nat): (r: Result<(Record, nat), MsgError>)
    ensures r.Ok? ==> o + 11 <= r.value.1 <= |p|
  {
    var Decoded(name, next) :- DecodeName(p, o);
    if |p| - next < 10 then Err(ShortPacket) else
      var rdlen := U16(p, next + 8);
      var rdata := next + 10;
      if |p| - rdata < rdlen then Err(InvalidRecord) else
        Ok((Record(name, FromU16(U16(p, next)), U16(p, next + 2), U32(p, next + 4), p[rdata..rdata + rdlen]),
            rdata + rdlen))
  }

  function Section(p: Bytes, o: nat, n: nat): (r: Result<(seq<Record>, nat), MsgError>)
    ensures r.Ok? ==> |r.value.0| == n && o + 11 * n <= r.value.1
    ensures r.Ok? && o <= |p| ==> r.value.1 <= |p|
    decreases n
  {
    if n == 0 then Ok(([], o)) else
      var (rr, next) :- RecordAt(p, o);
      var (rest, end) :- Section(p, next, n - 1);
      Ok(([rr] + rest, end))
  }

  function Unpack(p: Bytes): (r: Result<Msg, MsgError>) {
    if |p| < HEADER_SIZE then Err(ShortPacket) else
      var (questions, o1) :- Questions(p, HEADER_SIZE, U16(p, 4));
      var (answers, o2) :- Section(p, o1, U16(p, 6));
      var (authorities, o3) :- Section(p, o2, U16(p, 8));
      var (additionals, o4) :- Section(p, o3, U16(p, 10));
      if o4 != |p| then Err(TrailingBytes) else
        Ok(Msg(HeaderFromBits(U16(p, 0), U16(p, 2)), false, questions, answers, authorities, additionals))
  }

  method UnpackRecord(p: Bytes, offset: nat) returns (r: Result<(Record, nat), MsgError>)
    ensures r == RecordAt(p, offset)
  {
    var decoded := FromWire(p, offset);
    if decoded.Err? {
      return Err(decoded.error);
    }
    var Decoded(name, next) := decoded.value;
    if |p| - next < 10 {
      return Err(ShortPacket);
    }
    var rdlen: nat := U16(p, next + 8);
    var rdata := next + 10;
    if |p| - rdata < rdlen {
      return Err(InvalidRecord);
    }
    var rr := Record(name, FromU16(U16(p, next)), U16(p, next + 2), U32(p, next + 4), p[rdata..rdata + rdlen]);
    return Ok((rr, rdata + rdlen));
  }

  method UnpackSection(p: Bytes, start: nat, count: nat) returns (r: Result<(seq<Record>, nat), MsgError>)
    ensures r == Section(p, start, count)
  {
    var records: seq<Record> := [];
    var offset: nat := start;
    SectionPrefixStart(p, start, count);
    for i := 0 to count
      invariant Section(p, start, count) == Prepend(records, Section(p, offset, count - i))
    {
      var decoded := UnpackRecord(p, offset);
      if decoded.Err? {
        return Err(decoded.error);
      }
      var (rr, next) := decoded.value;
      SectionPrefixStep(p, offset, count - i, records, rr, next);
      records := records + [rr];
      offset := next;
    }
    assert records + [] == records;
    return Ok((records, offset));
  }

  ghost function Prepend<T>(done: seq<T>, rest: Result<(seq<T>, nat), MsgError>): Result<(seq<T>, nat), MsgError> {
    match rest
    case Ok((more, end)) => Ok((done + more, end))
    case Err(e) => Err(e)
  }

  lemma {:induction false} SectionPrefixStart(p: Bytes, o: nat, n: nat)
    ensures Section(p, o, n) == Prepend([], Section(p, o, n))
  {
    var all := Section(p, o, n);
    assert all.Ok? ==> [] + all.value.0 == all.value.0;
  }

  lemma {:induction false} SectionPrefixStep(p: Bytes, o: nat, n: nat, done: seq<Record>, rr: Record, next: nat)
    requires n > 0 && RecordAt(p, o) == Ok((rr, next))
    ensures Prepend(done, Section(p, o, n)) == Prepend(done + [rr], Section(p, next, n - 1))
  {
    var rest := Section(p, next, n - 1);
    if rest.Ok? {
      ConcatAssoc(done, [rr], rest.value.0);
    }
  }

  method UnpackMsg(p: Bytes) returns (r: Result<Msg, MsgError>)
    ensures r == Unpack(p)
  {
    hide Section, HeaderFromBits, DecodeName, FromU16;
    if |p| < HEADER_SIZE {
      return Err(ShortPacket);
    }
    var qdcount := U16(p, 4);
    var questions: seq<Question> := [];
    var offset: nat := HEADER_SIZE;
    QuestionsStart(p, offset, qdcount);
    for i := 0 to qdcount
      invariant Questions(p, HEADER_SIZE, qdcount) == Prepend(questions, Questions(p, offset, qdcount - i))
    {
      var decoded := FromWire(p, offset);
      if decoded.Err? {
        return Err(decoded.error);
      }
      var Decoded(name, next) := decoded.value;
      if |p| - next < 4 {
        return Err(ShortPacket);
      }
      var q := Question(name, FromU16(U16(p, next)), U16(p, next + 2));
      QuestionsStep(p, offset, qdcount - i, questions, q, next + 4);
      questions := questions + [q];
      offset := next + 4;
    }
    assert questions + [] == questions;
    var answers := UnpackSection(p, offset, U16(p, 6));
    if answers.Err? {
      return Err(answers.error);
    }
    var authorities := UnpackSection(p, answers.value.1, U16(p, 8));
    if authorities.Err? {
      return Err(authorities.error);
    }
    var additionals := UnpackSection(p, authorities.value.1, U16(p, 10));
    if additionals.Err? {
      return Err(additionals.error);
    }
    if additionals.value.1 != |p| {
      return Err(TrailingBytes);
    }
    return Ok(Msg(HeaderFromBits(U16(p, 0), U16(p, 2)), false, questions,
                  answers.value.0, authorities.value.0, additionals.value.0));
  }

  lemma {:induction false} QuestionsStart(p: Bytes, o: nat, n: nat)
    ensures Questions(p, o, n) == Prepend([], Questions(p, o, n))
  {
    var all := Questions(p, o, n);
    assert all.Ok? ==> [] + all.value.0 == all.value.0;
  }

  lemma {:induction false} QuestionsStep(p: Bytes, o: nat, n: nat, done: seq<Question>, q: Question, next: nat)
    requires n > 0 && QuestionAt(p, o) == Ok((q, next))
    ensures Prepend(done, Questions(p, o, n)) == Prepend(done + [q], Questions(p, next, n - 1))
  {
    var rest := Questions(p, next, n - 1);
    if rest.Ok? {
      ConcatAssoc(done, [q], rest.value.0);
    }
  }

  // ---------------------------------------------------------------- pack

  predicate LabelsFit(labels: Labels) {
    forall l :: l in labels ==> |l| < 0x40
  }

  function EncodeName(labels: Labels): (b: Bytes)
    requires LabelsFit(labels)
    ensures |b| > 0
  {
    if labels == [] then [0] else [|labels[0]|] + labels[0] + EncodeName(labels[1..])
  }

  function EncodeQuestion(q: Question): Bytes
    requires LabelsFit(q.name)
  {
    EncodeName(q.name) + (Be16(ToU16(q.qtype)) + Be16(q.qclass))
  }

  predicate RecordFits(rr: Record) {
    LabelsFit(rr.name) && |rr.rdata| < 0x1_0000
  }

  /** Type, class, TTL and data length. */
  function EncodeFixed(rr: Record): (b: Bytes)
    requires |rr.rdata| < 0x1_0000
    ensures |b| == 10
  {
    Be16(ToU16(rr.rrType)) + (Be16(rr.rrClass) + (Be32(rr.ttl) + Be16(|rr.rdata|)))
  }

  function EncodeRecord(rr: Record): (b: Bytes)
    requires RecordFits(rr)
    ensures |b| >= 11
  {
    EncodeName(rr.name) + (EncodeFixed(rr) + rr.rdata)
  }

  function PackQuestions(qs: seq<Question>): Result<Bytes, MsgError> {
    if qs == [] then Ok([])
    else if !LabelsFit(qs[0].name) then Err(InvalidLabelLength)
    else
      var rest :- PackQuestions(qs[1..]);
      Ok(EncodeQuestion(qs[0]) + rest)
  }

  function PackRecords(rrs: seq<Record>): Result<Bytes, MsgError> {
    if rrs == [] then Ok([])
    else if |rrs[0].rdata| >= 0x1_0000 then Err(RdataTooLong)
    else if !LabelsFit(rrs[0].name) then Err(InvalidLabelLength)
    else
      var rest :- PackRecords(rrs[1..]);
      Ok(EncodeRecord(rrs[0]) + rest)
  }

  predicate CountsFit(m: Msg) {
    |m.questions| < 0x1_0000 && |m.answers| < 0x1_0000 && |m.authorities| < 0x1_0000 && |m.additionals| < 0x1_0000
  }

  function EncodeHeader(m: Msg): (b: Bytes)
    requires CountsFit(m)
    ensures |b| == HEADER_SIZE
  {
    Be16(m.header.id) + Be16(HeaderToBits(m.header)) + Be16(|m.questions|)
    + Be16(|m.answers|) + Be16(|m.authorities|) + Be16(|m.additionals|)
  }

  function Pack(m: Msg): Result<Bytes, MsgError> {
    if !CountsFit(m) then Err(InvalidRecord) else
      var questions :- PackQuestions(m.questions);
      var answers :- PackRecords(m.answers);
      var authorities :- PackRecords(m.authorities);
      var additionals :- PackRecords(m.additionals);
      Ok(EncodeHeader(m) + questions + answers + authorities + additionals)
  }

  method PackInto(labels: Labels, start: Bytes) returns (r: Result<Bytes, MsgError>)
    ensures r == if LabelsFit(labels) then Ok(start + EncodeName(labels)) else Err(InvalidLabelLength)
  {
    var out := start;
    for i := 0 to |labels|
      invariant LabelsFit(labels[..i])
      invariant LabelsFit(labels) ==> out + EncodeName(labels[i..]) == start + EncodeName(labels)
    {
      assert labels[..i + 1] == labels[..i] + [labels[i]];
      if |labels[i]| >= 0x40 {
        assert labels[i] in labels;
        return Err(InvalidLabelLength);
      }
      assert labels[i..][1..] == labels[i + 1..];
      ghost var before := out;
      out := out + [|labels[i]|];
      out := out + labels[i];
      assert out == before + ([|labels[i]|] + labels[i]);
    }
    assert labels[..|labels|] == labels;
    return Ok(out + [0]);
  }

  method PackRecord(rr: Record, start: Bytes) returns (r: Result<Bytes, MsgError>)
    ensures r == if |rr.rdata| >= 0x1_0000 then Err(RdataTooLong)
                 else if !LabelsFit(rr.name) then Err(InvalidLabelLength)
                 else Ok(start + EncodeRecord(rr))
  {
    if |rr.rdata| > 0xFFFF {
      return Err(RdataTooLong);
    }
    r := PackInto(rr.name, start);
    if r.Err? {
      return;
    }
    var out := r.value;
    out := out + Be16(ToU16(rr.rrType));
    out := out + Be16(rr.rrClass);
    out := out + Be32(rr.ttl);
    out := out + Be16(|rr.rdata|);
    out := out + rr.rdata;
    assert out == start + EncodeRecord(rr);
    return Ok(out);
  }

  ghost function Behind(done: Bytes, rest: Result<Bytes, MsgError>): Result<Bytes, MsgError> {
    match rest
    case Ok(b) => Ok(done + b)
    case Err(e) => Err(e)
  }

  lemma {:induction false} BehindStep(done: Bytes, next: Bytes, rest: Result<Bytes, MsgError>)
    ensures Behind(done, Behind(next, rest)) == Behind(done + next, rest)
  {
    if rest.Ok? {
      ConcatAssoc(done, next, rest.value);
    }
  }

  method PackSection(rrs: seq<Record>, start: Bytes) returns (r: Result<Bytes, MsgError>)
    ensures r == Behind(start, PackRecords(rrs))
  {
    var out := start;
    for i := 0 to |rrs|
      invariant Behind(start, PackRecords(rrs)) == Behind(out, PackRecords(rrs[i..]))
    {
      var packed := PackRecord(rrs[i], out);
      assert rrs[i..][1..] == rrs[i + 1..];
      if packed.Err? {
        return Err(packed.error);
      }
      BehindStep(out, EncodeRecord(rrs[i]), PackRecords(rrs[i + 1..]));
      out := packed.value;
    }
    assert out + [] == out;
    return Ok(out);
  }

  method PackMsg(m: Msg) returns (r: Result<Bytes, MsgError>)
    ensures r == Pack(m)
  {
    if !CountsFit(m) {
      return Err(InvalidRecord);
    }
    var out := Be16(m.header.id);
    out := out + Be16(HeaderToBits(m.header));
    out := out + Be16(|m.questions|);
    out := out + Be16(|m.answers|);
    out := out + Be16(|m.authorities|);
    out := out + Be16(|m.additionals|);
    for i := 0 to |m.questions|
      invariant Behind(EncodeHeader(m), PackQuestions(m.questions)) == Behind(out, PackQuestions(m.questions[i..]))
    {
      var q := m.questions[i];
      assert m.questions[i..][1..] == m.questions[i + 1..];
      var packed := PackInto(q.name, out);
      if packed.Err? {
        return Err(packed.error);
      }
      BehindStep(out, EncodeQuestion(q), PackQuestions(m.questions[i + 1..]));
      ghost var before := out;
      out := packed.value + Be16(ToU16(q.qtype));
      out := out + Be16(q.qclass);
      assert out == before + EncodeQuestion(q);
    }
    assert out + [] == out;
    r := PackSection(m.answers, out);
    if r.Ok? {
      r := PackSection(m.authorities, r.value);
    }
    if r.Ok? {
      r := PackSection(m.additionals, r.value);
    }
  }
}
