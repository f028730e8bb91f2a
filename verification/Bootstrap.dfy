/** The bootstrap resolver's own query builder and response parser, both in lib.rs. */
module Bootstrap {
  import opened Wire
  import opened Names
  import opened NameAgreement
  import opened RrTypes
  import opened Messages
  import opened CodecRoundTrip
  import opened HostNames
  import AnswerRewrite

  const FLAG_QR := 0x8000
  const RECURSION_DESIRED: uint16 := 0x0100
  const U32_MAX: uint32 := 0xFFFF_FFFF

  // ---------------------------------------------------------------- build_bootstrap_dns_query

  predicate LabelAccepted(l: Bytes) {
    1 <= |l| <= 63 && 0 !in l
  }

  predicate Accepted(host: Bytes) {
    var trimmed := TrimDots(host);
    |trimmed| > 0 && forall l :: l in Split(trimmed) ==> LabelAccepted(l)
  }

  function QueryHeader(id: uint16): (b: Bytes)
    ensures |b| == HEADER_SIZE
  {
    Be16(id) + Be16(RECURSION_DESIRED) + Be16(1) + [0, 0, 0, 0, 0, 0]
  }

  function Query(host: Bytes, qtype: uint16, id: uint16): Bytes
    requires Accepted(host)
  {
    QueryHeader(id) + (EncodeName(Split(TrimDots(host))) + (Be16(qtype) + Be16(CLASS_IN)))
  }

  /** `id` is the random number the source draws. */
  method BuildBootstrapDnsQuery(host: Bytes, qtype: uint16, id: uint16) returns (r: Option<Bytes>)
    ensures r.Some? <==> Accepted(host)
    ensures r.Some? ==> r.value == Query(host, qtype, id)
  {
    var trimmed := TrimDots(host);
    if |trimmed| == 0 {
      return None;
    }
    var packet: Bytes := seq(12, _ => 0);
    packet := Put16(packet, 0, id);
    packet := Put16(packet, 2, RECURSION_DESIRED);
    packet := Put16(packet, 4, 1);
    assert packet == QueryHeader(id);
    var labels := Split(trimmed);
    for i := 0 to |labels|
      invariant forall l :: l in labels[..i] ==> LabelAccepted(l)
      invariant Accepted(host) ==>
          LabelsFit(labels) && LabelsFit(labels[i..])
          && packet + EncodeName(labels[i..]) == QueryHeader(id) + EncodeName(labels)
    {
      var label_ := labels[i];
      assert labels[..i + 1] == labels[..i] + [label_];
      assert labels[i..][1..] == labels[i + 1..];
      if |label_| == 0 || |label_| > 63 || 0 in label_ {
        assert label_ in labels;
        return None;
      }
      ghost var before := packet;
      packet := packet + [|label_|];
      packet := packet + label_;
      assert packet == before + ([|label_|] + label_);
    }
    assert labels[..|labels|] == labels;
    packet := packet + [0];
    packet := packet + (Be16(qtype) + Be16(CLASS_IN));
    ConcatAssoc(QueryHeader(id), EncodeName(labels), Be16(qtype) + Be16(CLASS_IN));
    return Some(packet);
  }

  /** Labels of 1 to 63 octets, none of them NUL or a dot. */
  predicate HostLabels(labels: Labels) {
    |labels| > 0 && forall l :: l in labels ==> 1 <= |l| <= 63 && 0 !in l && 46 !in l
  }

  /** The hosts accepted are, but for dots at their end, such labels joined by dots. */
  lemma {:induction false} AcceptedHosts(host: Bytes)
    ensures Accepted(host) <==> exists labels: Labels :: HostLabels(labels) && TrimDots(host) == JoinDots(labels)
  {
    hide Split, TrimDots, JoinDots;
    SplitJoins(TrimDots(host));
    if Accepted(host) {
      assert HostLabels(Split(TrimDots(host)));
    }
    if exists labels: Labels :: HostLabels(labels) && TrimDots(host) == JoinDots(labels) {
      var labels: Labels :| HostLabels(labels) && TrimDots(host) == JoinDots(labels);
      JoinSplits(labels);
      JoinEmptyIff(labels);
    }
  }

  lemma {:induction false} LowerEncoded(p: Bytes, o: nat, labels: Labels, jumps: nat)
    requires jumps <= |p| && (forall l :: l in labels ==> 1 <= |l| < 0x40) && At(p, o, EncodeName(labels))
    ensures LowerFrom(p, o, jumps) == Some(Decoded(labels, o + |EncodeName(labels)|))
    decreases |labels|
  {
    hide At, EncodeName;
    if labels == [] {
      RootAt(p, o, labels);
      return;
    }
    var l := labels[0];
    FirstLabelAt(p, o, labels);
    LowerEncoded(p, o + 1 + |l|, labels[1..], jumps);
    assert [l] + labels[1..] == labels;
  }

  lemma {:induction false} QueryParts(host: Bytes, qtype: uint16, id: uint16)
    requires Accepted(host)
    ensures var p := Query(host, qtype, id);
            var name := EncodeName(Split(TrimDots(host)));
            && |p| == HEADER_SIZE + |name| + 4
            && At(p, 0, QueryHeader(id)) && At(p, HEADER_SIZE, name)
            && At(p, |p| - 4, Be16(qtype)) && At(p, |p| - 2, Be16(CLASS_IN))
  {
    hide EncodeName, Split, TrimDots, At, QueryHeader, Be16;
    var p := Query(host, qtype, id);
    var name := EncodeName(Split(TrimDots(host)));
    AtWhole(p, p);
    AtParts(p, 0, QueryHeader(id), name + (Be16(qtype) + Be16(CLASS_IN)));
    AtParts(p, HEADER_SIZE, name, Be16(qtype) + Be16(CLASS_IN));
    AtParts(p, HEADER_SIZE + |name|, Be16(qtype), Be16(CLASS_IN));
  }

  /**
    For every accepted host, the parser reads back the lower-cased host, dots at its end replaced
    by the one dot of the root, and lands on the type and class, the last four bytes.
   */
  lemma {:induction false} QueryReadsBack(host: Bytes, qtype: uint16, id: uint16)
    requires Accepted(host)
    ensures var p := Query(host, qtype, id);
            && |p| >= HEADER_SIZE + 4
            && LowerName(p, HEADER_SIZE) == Some(Text(LowerAll(TrimDots(host)) + [DOT], |p| - 4))
            && U16(p, |p| - 4) == qtype && U16(p, |p| - 2) == CLASS_IN
            && U16(p, 0) == id && p[2..12] == [1, 0, 0, 1, 0, 0, 0, 0, 0, 0]
  {
    hide Split, TrimDots, At, JoinDots, LowerAll, Query, EncodeName, LowerFrom;
    var p := Query(host, qtype, id);
    var labels := Split(TrimDots(host));
    QueryParts(host, qtype, id);
    LowerEncoded(p, HEADER_SIZE, labels, 0);
    SplitJoins(TrimDots(host));
    Be16RoundTrip(p, |p| - 4, qtype);
    Be16RoundTrip(p, |p| - 2, CLASS_IN);
    HeaderFields(p, id);
  }

  lemma {:induction false} HeaderFields(p: Bytes, id: uint16)
    requires At(p, 0, QueryHeader(id))
    ensures |p| >= HEADER_SIZE && U16(p, 0) == id && p[2..12] == [1, 0, 0, 1, 0, 0, 0, 0, 0, 0]
  {
    var h := QueryHeader(id);
    assert forall k :: 0 <= k < 12 ==> p[k] == p[0..12][k] == h[k];
  }

  // ---------------------------------------------------------------- parse_bootstrap_dns_response

  datatype BootstrapDnsResult = BootstrapDnsResult(addrs: seq<IpAddr>, minTtlSecs: uint32)

  /** One answer as this parser sees it; `owner` is lower-cased. */
  datatype Answer = Answer(owner: Bytes, rrType: uint16, rrClass: uint16, ttl: uint32, rdata: Bytes)

  datatype Located = Located(answer: Answer, next: nat)

  function AnswerAt(p: Bytes, o: nat): (r: Option<Located>)
    ensures r.Some? ==> o < r.value.next <= |p|
  {
    match LowerName(p, o)
    case None => None
    case Some(Text(owner, next)) =>
      if |p| - next < 10 then None
      else
        var end := next + 10 + U16(p, next + 8) as int;
        if end > |p| then None
        else Some(Located(Answer(owner, U16(p, next), U16(p, next + 2), U32(p, next + 4), p[next + 10..end]), end))
  }

  function Answers(p: Bytes, o: nat, n: nat): Option<seq<Answer>>
    decreases n
  {
    if n == 0 then Some([])
    else
      match AnswerAt(p, o)
      case None => None
      case Some(Located(a, next)) =>
        match Answers(p, next, n - 1)
        case None => None
        case Some(rest) => Some([a] + rest)
  }

  /** The address in an A or AAAA record whose data have the right length. */
  function Address(rrType: uint16, rdata: Bytes): Option<IpAddr> {
    if rrType == TYPE_A && |rdata| == 4 then Some(V4(rdata))
    else if rrType == TYPE_AAAA && |rdata| == 16 then Some(V6(rdata))
    else None
  }

  /** The address an answer contributes: owned by the question's name, of its type, class IN, of the right length. */
  function AddressOf(a: Answer, name: Bytes, qtype: uint16): Option<IpAddr> {
    if a.owner == name && a.rrClass == CLASS_IN && a.rrType == qtype then Address(a.rrType, a.rdata) else None
  }

  function Min(a: uint32, b: uint32): uint32 {
    if b < a then b else a
  }

  function Collected(answers: seq<Answer>, name: Bytes, qtype: uint16): BootstrapDnsResult {
    if |answers| == 0 then BootstrapDnsResult([], U32_MAX)
    else
      var n := |answers| - 1;
      var before := Collected(answers[..n], name, qtype);
      match AddressOf(answers[n], name, qtype)
      case Some(ip) => BootstrapDnsResult(before.addrs + [ip], Min(before.minTtlSecs, answers[n].ttl))
      case None => before
  }

  /** The questions after the first are skipped by the raw walker. */
  function SkipQuestions(p: Bytes, o: nat, n: nat): Option<nat>
    requires |p| > 0
    decreases n
  {
    if n == 0 then Some(o)
    else
      match SkipName(p, o)
      case Err(_) => None
      case Ok(next) => if |p| - next < 4 then None else SkipQuestions(p, next + 4, n - 1)
  }

  function Response(p: Bytes, id: uint16, qtype: uint16): Option<BootstrapDnsResult> {
    if |p| < HEADER_SIZE || U16(p, 0) != id || U16(p, 2) < FLAG_QR || U16(p, 4) == 0 then None
    else
      match LowerName(p, HEADER_SIZE)
      case None => None
      case Some(Text(name, next)) =>
        if |p| - next < 4 then None
        else
          match SkipQuestions(p, next + 4, U16(p, 4) - 1)
          case None => None
          case Some(o) =>
            match Answers(p, o, U16(p, 6))
            case None => None
            case Some(answers) => Some(Collected(answers, name, qtype))
  }

  ghost function Then(done: seq<Answer>, rest: Option<seq<Answer>>): Option<seq<Answer>> {
    match rest
    case None => None
    case Some(more) => Some(done + more)
  }

  lemma {:induction false} ThenStart(rest: Option<seq<Answer>>)
    ensures Then([], rest) == rest
  {
    assert rest.Some? ==> [] + rest.value == rest.value;
  }

  lemma {:induction false} ThenStep(p: Bytes, o: nat, n: nat, done: seq<Answer>)
    requires n > 0 && AnswerAt(p, o).Some?
    ensures var Located(a, next) := AnswerAt(p, o).value;
            Then(done, Answers(p, o, n)) == Then(done + [a], Answers(p, next, n - 1))
  {
    hide AnswerAt;
    var rest := Answers(p, AnswerAt(p, o).value.next, n - 1);
    if rest.Some? {
      ConcatAssoc(done, [AnswerAt(p, o).value.answer], rest.value);
    }
  }

  lemma {:induction false} CollectedSnoc(done: seq<Answer>, a: Answer, name: Bytes, qtype: uint16)
    ensures Collected(done + [a], name, qtype)
         == var before := Collected(done, name, qtype);
            match AddressOf(a, name, qtype)
            case Some(ip) => BootstrapDnsResult(before.addrs + [ip], Min(before.minTtlSecs, a.ttl))
            case None => before
  {
    assert (done + [a])[..|done|] == done;
  }

  method SkipRest(p: Bytes, start: nat, count: nat) returns (r: Option<nat>)
    requires |p| > 0
    ensures r == SkipQuestions(p, start, count)
  {
    var offset: nat := start;
    for i := 0 to count
      invariant SkipQuestions(p, offset, count - i) == SkipQuestions(p, start, count)
    {
      var next := SkipNameLoop(p, offset);
      if next.Err? {
        return None;
      }
      offset := next.value;
      if |p| - offset < 4 {
        return None;
      }
      offset := offset + 4;
    }
    return Some(offset);
  }

  method ReadAnswer(p: Bytes, offset: nat) returns (r: Option<Located>)
    ensures r == AnswerAt(p, offset)
  {
    hide LowerName;
    var owner := ParseDnsNameLower(p, offset);
    if owner.None? {
      return None;
    }
    var rr := owner.value.next;
    if |p| - rr < 10 {
      return None;
    }
    var rrType := U16(p, rr);
    var rrClass := U16(p, rr + 2);
    var rrTtl := U32(p, rr + 4);
    var rdlen: nat := U16(p, rr + 8);
    var rdata := rr + 10;
    if |p| - rdata < rdlen {
      return None;
    }
    return Some(Located(Answer(owner.value.bytes, rrType, rrClass, rrTtl, p[rdata..rdata + rdlen]), rdata + rdlen));
  }

  /** The answers up to `offset` are `done`, and `result` is what they amount to. */
  ghost predicate CollectInv(p: Bytes, start: nat, count: nat, name: Bytes, qtype: uint16,
                             offset: nat, left: nat, done: seq<Answer>, result: BootstrapDnsResult) {
    Answers(p, start, count) == Then(done, Answers(p, offset, left)) && Collected(done, name, qtype) == result
  }

  lemma {:induction false} CollectStart(p: Bytes, start: nat, count: nat, name: Bytes, qtype: uint16)
    ensures CollectInv(p, start, count, name, qtype, start, count, [], BootstrapDnsResult([], U32_MAX))
  {
    ThenStart(Answers(p, start, count));
  }

  lemma {:induction false} CollectStep(p: Bytes, start: nat, count: nat, name: Bytes, qtype: uint16,
                                       offset: nat, left: nat, done: seq<Answer>, result: BootstrapDnsResult)
    requires CollectInv(p, start, count, name, qtype, offset, left, done, result) && left > 0
    ensures AnswerAt(p, offset).None? ==> Answers(p, start, count) == None
    ensures AnswerAt(p, offset).Some? ==>
              var Located(a, next) := AnswerAt(p, offset).value;
              var result' := match AddressOf(a, name, qtype)
                             case Some(ip) => BootstrapDnsResult(result.addrs + [ip], Min(result.minTtlSecs, a.ttl))
                             case None => result;
              CollectInv(p, start, count, name, qtype, next, left - 1, done + [a], result')
  {
    hide AnswerAt, AddressOf, Collected;
    if AnswerAt(p, offset).Some? {
      ThenStep(p, offset, left, done);
      CollectedSnoc(done, AnswerAt(p, offset).value.answer, name, qtype);
    }
  }

  lemma {:induction false} CollectEnd(p: Bytes, start: nat, count: nat, name: Bytes, qtype: uint16,
                                      offset: nat, done: seq<Answer>, result: BootstrapDnsResult)
    requires CollectInv(p, start, count, name, qtype, offset, 0, done, result)
    ensures Answers(p, start, count) == Some(done) && Collected(done, name, qtype) == result
  {
    assert done + [] == done;
  }

  /** The loop over the answers. */
  method CollectAnswers(p: Bytes, start: nat, count: nat, name: Bytes, qtype: uint16)
    returns (r: Option<BootstrapDnsResult>)
    ensures r == match Answers(p, start, count)
                 case None => None
                 case Some(answers) => Some(Collected(answers, name, qtype))
  {
    hide Collected, Answers, AnswerAt, Address, Min, CollectInv;
    var offset: nat := start;
    var addrs: seq<IpAddr> := [];
    var minTtlSecs: uint32 := U32_MAX;
    ghost var done: seq<Answer> := [];
    CollectStart(p, start, count, name, qtype);
    for i := 0 to count
      invariant CollectInv(p, start, count, name, qtype, offset, count - i, done, BootstrapDnsResult(addrs, minTtlSecs))
    {
      CollectStep(p, start, count, name, qtype, offset, count - i, done, BootstrapDnsResult(addrs, minTtlSecs));
      var read := ReadAnswer(p, offset);
      if read.None? {
        return None;
      }
      var Located(rr, next) := read.value;
      if rr.owner == name && rr.rrClass == CLASS_IN && rr.rrType == qtype {
        var ip := Address(rr.rrType, rr.rdata);
        if ip.Some? {
          addrs := addrs + [ip.value];
          minTtlSecs := Min(minTtlSecs, rr.ttl);
        }
      }
      done := done + [rr];
      offset := next;
    }
    CollectEnd(p, start, count, name, qtype, offset, done, BootstrapDnsResult(addrs, minTtlSecs));
    return Some(BootstrapDnsResult(addrs, minTtlSecs));
  }

  method ParseBootstrapDnsResponse(p: Bytes, id: uint16, qtype: uint16) returns (r: Option<BootstrapDnsResult>)
    ensures r == Response(p, id, qtype)
  {
    hide LowerName, Answers, SkipQuestions, Collected;
    if |p| < HEADER_SIZE {
      return None;
    }
    if U16(p, 0) != id {
      return None;
    }
    if U16(p, 2) < FLAG_QR {
      return None;
    }
    var qdcount: nat := U16(p, 4);
    if qdcount == 0 {
      return None;
    }
    var question := ParseDnsNameLower(p, HEADER_SIZE);
    if question.None? {
      return None;
    }
    if |p| - question.value.next < 4 {
      return None;
    }
    var offset := SkipRest(p, question.value.next + 4, qdcount - 1);
    if offset.None? {
      return None;
    }
    r := CollectAnswers(p, offset.value, U16(p, 6), question.value.bytes, qtype);
  }

  // ---------------------------------------------------------------- what the response parser returns

  /** The answers that contribute an address, in order. */
  function Contributing(answers: seq<Answer>, name: Bytes, qtype: uint16): (r: seq<Answer>)
    ensures forall a :: a in r ==> a in answers && AddressOf(a, name, qtype).Some?
    ensures forall a :: a in answers && AddressOf(a, name, qtype).Some? ==> a in r
  {
    if |answers| == 0 then []
    else
      var n := |answers| - 1;
      var before := Contributing(answers[..n], name, qtype);
      assert answers == answers[..n] + [answers[n]];
      if AddressOf(answers[n], name, qtype).Some? then before + [answers[n]] else before
  }

  lemma {:induction false} ContributingSnoc(answers: seq<Answer>, a: Answer, name: Bytes, qtype: uint16)
    ensures Contributing([], name, qtype) == []
    ensures Contributing(answers + [a], name, qtype)
         == Contributing(answers, name, qtype) + if AddressOf(a, name, qtype).Some? then [a] else []
  {
    hide AddressOf;
    assert (answers + [a])[..|answers|] == answers;
    assert Contributing(answers, name, qtype) + [] == Contributing(answers, name, qtype);
  }

  /** Each answer on its own, and in their order. */
  lemma {:induction false} ContributingConcat(a: seq<Answer>, b: seq<Answer>, name: Bytes, qtype: uint16)
    ensures Contributing(a + b, name, qtype) == Contributing(a, name, qtype) + Contributing(b, name, qtype)
    ensures |b| == 1 ==> Contributing(b, name, qtype) == if AddressOf(b[0], name, qtype).Some? then b else []
    decreases |b|
  {
    hide AddressOf, Contributing;
    if |b| == 0 {
      ContributingSnoc(a, Answer([], 0, 0, 0, []), name, qtype);
      assert a + b == a;
    } else {
      var n := |b| - 1;
      assert b == b[..n] + [b[n]];
      ContributingConcat(a, b[..n], name, qtype);
      ContributingSnoc(b[..n], b[n], name, qtype);
      ContributingSnoc(a + b[..n], b[n], name, qtype);
      ConcatAssoc(a, b[..n], [b[n]]);
      var last := if AddressOf(b[n], name, qtype).Some? then [b[n]] else [];
      ConcatAssoc(Contributing(a, name, qtype), Contributing(b[..n], name, qtype), last);
    }
  }

  /** The address of an answer is its data: 4 octets of type 1, or 16 of type 28, in class 1 under the right name. */
  lemma {:induction false} AddressIsData(a: Answer, name: Bytes, qtype: uint16)
    ensures AddressOf(a, name, qtype).Some? <==>
              && a.owner == name && a.rrClass == 1 && a.rrType == qtype
              && ((qtype == 1 && |a.rdata| == 4) || (qtype == 28 && |a.rdata| == 16))
    ensures AddressOf(a, name, qtype).Some? ==>
              match AddressOf(a, name, qtype).value
              case V4(octets) => qtype == 1 && octets == a.rdata
              case V6(octets) => qtype == 28 && octets == a.rdata
  {
  }

  /** The two readers of addresses in the program agree on every decoded record of class IN. */
  lemma {:induction false} ReadersOfAddressesAgree(rr: Record)
    requires rr.rrClass == 1 && Canonical(rr.rrType)
    ensures AnswerRewrite.AnswerIps([rr])
         == match Address(ToU16(rr.rrType), rr.rdata) case Some(ip) => [ip] case None => []
  {
    hide FromU16, ToU16;
    var code := ToU16(rr.rrType);
    TypeRoundTrip(rr.rrType);
    AddressCodes(code);
    assert [rr][1..] == [];
  }

  ghost predicate IsMinimum(ttl: uint32, answers: seq<Answer>) {
    if answers == [] then ttl == 0xFFFF_FFFF
    else (exists a :: a in answers && a.ttl == ttl) && forall a :: a in answers ==> ttl <= a.ttl
  }

  /** The addresses are those of the contributing answers, in order, and the TTL is their least. */
  lemma {:induction false} CollectsContributing(answers: seq<Answer>, name: Bytes, qtype: uint16)
    ensures var kept := Contributing(answers, name, qtype);
            var result := Collected(answers, name, qtype);
            && |result.addrs| == |kept|
            && (forall i :: 0 <= i < |kept| ==> Some(result.addrs[i]) == AddressOf(kept[i], name, qtype))
            && IsMinimum(result.minTtlSecs, kept)
    decreases |answers|
  {
    if |answers| > 0 {
      var n := |answers| - 1;
      CollectsContributing(answers[..n], name, qtype);
      var before := Contributing(answers[..n], name, qtype);
      if AddressOf(answers[n], name, qtype).Some? {
        MinimumSnoc(Collected(answers[..n], name, qtype).minTtlSecs, before, answers[n]);
      }
    }
  }

  lemma {:induction false} MinimumSnoc(ttl: uint32, answers: seq<Answer>, a: Answer)
    requires IsMinimum(ttl, answers)
    ensures IsMinimum(Min(ttl, a.ttl), answers + [a])
  {
    assert a in answers + [a];
    if answers != [] {
      var least :| least in answers && least.ttl == ttl;
      assert least in answers + [a];
    }
  }

  // ---------------------------------------------------------------- agreement with the message codec

  function AsAnswer(rr: Record): Answer {
    Answer(LowerText(rr.name), ToU16(rr.rrType), rr.rrClass, rr.ttl, rr.rdata)
  }

  function AsAnswers(rrs: seq<Record>): (r: seq<Answer>)
    ensures |r| == |rrs|
  {
    seq(|rrs|, i requires 0 <= i < |rrs| => AsAnswer(rrs[i]))
  }

  lemma {:induction false} AnswerAgrees(p: Bytes, o: nat)
    requires RecordAt(p, o).Ok?
    ensures AnswerAt(p, o) == Some(Located(AsAnswer(RecordAt(p, o).value.0), RecordAt(p, o).value.1))
  {
    hide FromU16, ToU16, LowerText, LowerName, DecodeName, Skip, SkipName, EndsInPointer, JsonFrom, JsonHalts, U32;
    WalkersAgree(p, o);
    CodeRoundTrip(U16(p, DecodeName(p, o).value.next));
  }

  lemma {:induction false} AsAnswersCons(first: Record, rest: seq<Record>)
    ensures AsAnswers([first] + rest) == [AsAnswer(first)] + AsAnswers(rest)
  {
  }

  lemma {:induction false} AnswersAgree(p: Bytes, o: nat, n: nat)
    requires Section(p, o, n).Ok?
    ensures Answers(p, o, n) == Some(AsAnswers(Section(p, o, n).value.0))
    decreases n
  {
    hide RecordAt, AnswerAt, AsAnswer;
    if n > 0 {
      AnswerAgrees(p, o);
      AnswersAgree(p, RecordAt(p, o).value.1, n - 1);
      AsAnswersCons(RecordAt(p, o).value.0, Section(p, RecordAt(p, o).value.1, n - 1).value.0);
    }
  }

  lemma {:induction false} QuestionsAgree(p: Bytes, o: nat, n: nat)
    requires |p| > 0 && Questions(p, o, n).Ok?
    ensures SkipQuestions(p, o, n) == Some(Questions(p, o, n).value.1)
    decreases n
  {
    hide FromU16, LowerText, LowerName, DecodeName, Skip, SkipName, EndsInPointer, JsonFrom, JsonHalts;
    if n > 0 {
      WalkersAgree(p, o);
      QuestionsAgree(p, QuestionAt(p, o).value.1, n - 1);
    }
  }

  /** No answer is taken from a packet with another id, without the response bit or without a question. */
  lemma {:induction false} OtherPacketsRefused(p: Bytes, id: uint16, qtype: uint16)
    requires |p| < 12 || p[0] as int * 256 + p[1] as int != id || p[2] < 128 || (p[4] == 0 && p[5] == 0)
    ensures Response(p, id, qtype).None?
  {
  }

  /**
    On every response the message decoder accepts, this second parser returns exactly what the
    decoded message says: the addresses of the answers owned by the first question's name.
   */
  lemma {:induction false} ResponseAgreesWithUnpack(p: Bytes, qtype: uint16)
    requires Unpack(p).Ok? && Unpack(p).value.header.response && |Unpack(p).value.questions| > 0
    ensures var m := Unpack(p).value;
            Response(p, m.header.id, qtype)
            == Some(Collected(AsAnswers(m.answers), LowerText(m.questions[0].name), qtype))
  {
    hide FromU16, LowerText, LowerName, DecodeName, Skip, SkipName, EndsInPointer, JsonFrom, JsonHalts, Section,
      Answers,
      SkipQuestions, Collected, RecordAt, AsAnswers;
    var n := U16(p, 4);
    var name := DecodeName(p, HEADER_SIZE);
    WalkersAgree(p, HEADER_SIZE);
    QuestionsAgree(p, QuestionAt(p, HEADER_SIZE).value.1, n - 1);
    AnswersAgree(p, Questions(p, HEADER_SIZE, n).value.1, U16(p, 6));
  }

  /**
    Where no label holds a dot, an answer contributes exactly when it is owned by the question's
    name, up to case, is class IN and is an address of the type asked.
   */
  lemma {:induction false} ContributesIffOwned(rr: Record, name: Labels, qtype: uint16)
    requires NameOk(rr.name) && NameOk(name) && Dotless(rr.name) && Dotless(name)
    ensures AddressOf(AsAnswer(rr), LowerText(name), qtype).Some? <==>
              && SameName(rr.name, name) && rr.rrClass == CLASS_IN && ToU16(rr.rrType) == qtype
              && ((qtype == TYPE_A && |rr.rdata| == 4) || (qtype == TYPE_AAAA && |rr.rdata| == 16))
  {
    hide LowerText, SameName, Dotless, ToU16, NameOctets;
    SameTextIffSameName(rr.name, name);
  }

  /** The names of an accepted response are such names, but for the dots. */
  lemma {:induction false} AcceptedNamesOk(p: Bytes)
    requires Unpack(p).Ok?
    ensures forall q :: q in Unpack(p).value.questions ==> NameOk(q.name)
    ensures forall rr :: rr in Unpack(p).value.answers ==> NameOk(rr.name)
  {
    hide Unpack, Pack, Canonical, NameOk;
    UnpackedIsOk(p);
  }
}
