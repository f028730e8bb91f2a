/**
  Rewriting answer addresses: once on the decoded message, once on the raw bytes.
  The byte-level rewrite walks the packet with skip_wire while it overwrites it.
 */
module AnswerRewrite {
  import opened Wire
  import opened Names
  import opened NameFrames
  import opened RrTypes
  import opened Messages

  // ---------------------------------------------------------------- on the decoded message

  predicate Selects(t: RrType, cls: uint16, size: nat, ip: IpAddr) {
    cls == CLASS_IN && ((t.A? && ip.V4? && size == 4) || (t.AAAA? && ip.V6? && size == 16))
  }

  function RewriteRecord(rr: Record, ip: IpAddr): Record {
    if Selects(rr.rrType, rr.rrClass, |rr.rdata|, ip) then rr.(rdata := ip.Octets()) else rr
  }

  function RewriteRecords(rrs: seq<Record>, ip: IpAddr): (r: seq<Record>)
    ensures |r| == |rrs|
  {
    seq(|rrs|, i requires 0 <= i < |rrs| => RewriteRecord(rrs[i], ip))
  }

  function RewriteMsg(m: Msg, ip: IpAddr): Msg {
    m.(answers := RewriteRecords(m.answers, ip))
  }

  method RewriteAnswerIps(answers: array<Record>, ip: IpAddr)
    modifies answers
    ensures answers[..] == RewriteRecords(old(answers[..]), ip)
  {
    ghost var was := answers[..];
    for i := 0 to answers.Length
      invariant forall k :: 0 <= k < i ==> answers[k] == RewriteRecord(was[k], ip)
      invariant forall k :: i <= k < answers.Length ==> answers[k] == was[k]
    {
      var rr := answers[i];
      if rr.rrClass == CLASS_IN {
        if rr.rrType.A? && ip.V4? && |rr.rdata| == 4 {
          answers[i] := rr.(rdata := ip.octets4);
        } else if rr.rrType.AAAA? && ip.V6? && |rr.rdata| == 16 {
          answers[i] := rr.(rdata := ip.octets6);
        }
      }
    }
  }

  /** The addresses the answer section carries, in order. */
  function AnswerIps(rrs: seq<Record>): seq<IpAddr> {
    if rrs == [] then [] else
      var rr := rrs[0];
      var rest := AnswerIps(rrs[1..]);
      if rr.rrClass != CLASS_IN then rest
      else if rr.rrType.A? && |rr.rdata| == 4 then [V4(rr.rdata)] + rest
      else if rr.rrType.AAAA? && |rr.rdata| == 16 then [V6(rr.rdata)] + rest
      else rest
  }

  method ListAnswerIps(rrs: seq<Record>) returns (ips: seq<IpAddr>)
    ensures ips == AnswerIps(rrs)
  {
    ips := [];
    for i := 0 to |rrs|
      invariant ips + AnswerIps(rrs[i..]) == AnswerIps(rrs)
    {
      var rr := rrs[i];
      assert rrs[i..][1..] == rrs[i + 1..];
      ghost var before := ips;
      if rr.rrClass == CLASS_IN {
        if rr.rrType.A? && |rr.rdata| == 4 {
          ips := ips + [V4(rr.rdata)];
        } else if rr.rrType.AAAA? && |rr.rdata| == 16 {
          ips := ips + [V6(rr.rdata)];
        }
      }
      assert before + AnswerIps(rrs[i..]) == ips + AnswerIps(rrs[i + 1..]);
    }
  }

  function SameFamily(a: IpAddr, b: IpAddr): bool {
    a.V4? == b.V4?
  }

  function Substituted(ips: seq<IpAddr>, ip: IpAddr): (r: seq<IpAddr>)
    ensures |r| == |ips|
  {
    seq(|ips|, i requires 0 <= i < |ips| => if SameFamily(ips[i], ip) then ip else ips[i])
  }

  /** Rewriting replaces exactly the answer addresses of the selected family, each in its place. */
  lemma {:induction false} RewriteSubstitutes(rrs: seq<Record>, ip: IpAddr)
    ensures AnswerIps(RewriteRecords(rrs, ip)) == Substituted(AnswerIps(rrs), ip)
    decreases |rrs|
  {
    if rrs != [] {
      RewriteSubstitutes(rrs[1..], ip);
      assert RewriteRecords(rrs, ip)[1..] == RewriteRecords(rrs[1..], ip);
    }
  }

  // ---------------------------------------------------------------- walking the raw bytes

  function SpanAt(p: Bytes, o: nat): (r: Result<Span, MsgError>)
    ensures r.Ok? ==> r.value.start == o && r.value.In(p)
  {
    var body :- Skip(p, o);
    if |p| - body < 10 then Err(ShortPacket)
    else if |p| - (body + 10) < U16(p, body + 8) then Err(InvalidRecord)
    else Ok(Span(o, body, body + 10 + U16(p, body + 8)))
  }

  /** The records passed before the walk ends, and where or why it ends. */
  datatype Walk = Walk(spans: seq<Span>, out: Result<nat, MsgError>)

  function WalkFrom(p: Bytes, o: nat, n: nat): (w: Walk)
    ensures forall s :: s in w.spans ==> s.In(p)
    ensures w.out.Ok? && o <= |p| ==> o <= w.out.value <= |p|
    decreases n
  {
    if n == 0 then Walk([], Ok(o)) else
      match SpanAt(p, o)
      case Err(e) => Walk([], Err(e))
      case Ok(s) =>
        var rest := WalkFrom(p, s.end, n - 1);
        Walk([s] + rest.spans, rest.out)
  }

  function SkipQuestions(p: Bytes, o: nat, n: nat): (r: Result<nat, MsgError>)
    ensures r.Ok? && o <= |p| ==> o <= r.value <= |p|
    decreases n
  {
    if n == 0 then Ok(o) else
      var next :- Skip(p, o);
      if |p| - next < 4 then Err(ShortPacket) else SkipQuestions(p, next + 4, n - 1)
  }

  predicate Chosen(p: Bytes, s: Span, ip: IpAddr)
    requires s.In(p)
  {
    Selects(FromU16(U16(p, s.body)), U16(p, s.body + 2), s.end - s.body - 10, ip)
  }

  /** In the octets of the packet: class 1 and either type 1 with 4 octets of data or type 28 with 16. */
  predicate HoldsAddress(p: Bytes, s: Span, ip: IpAddr)
    requires s.In(p)
  {
    && p[s.body + 2] == 0 && p[s.body + 3] == 1 && p[s.body] == 0
    && match ip
       case V4(_) => p[s.body + 1] == 1 && s.end - s.body == 14
       case V6(_) => p[s.body + 1] == 28 && s.end - s.body == 26
  }

  lemma {:induction false} ChosenInOctets(p: Bytes, s: Span, ip: IpAddr)
    requires s.In(p)
    ensures Chosen(p, s, ip) <==> HoldsAddress(p, s, ip)
  {
    hide FromU16;
    AddressCodes(U16(p, s.body));
  }

  function NewData(p: Bytes, s: Span, ip: IpAddr): (b: Bytes)
    requires s.In(p)
    ensures |b| == s.end - s.body - 10
  {
    if Chosen(p, s, ip) then ip.Octets() else p[s.body + 10..s.end]
  }

  /** What the packet holds from `o` on once the data of every chosen record passed is replaced. */
  ghost function Tail(p: Bytes, o: nat, n: nat, ip: IpAddr): (b: Bytes)
    requires o <= |p|
    ensures |b| == |p| - o
    decreases n
  {
    if n == 0 || SpanAt(p, o).Err? then p[o..] else
      var s := SpanAt(p, o).value;
      p[o..s.body + 10] + (NewData(p, s, ip) + Tail(p, s.end, n - 1, ip))
  }

  /** The walk over the whole message: questions, answers, then the two other sections together. */
  ghost function AnswersStart(p: Bytes): (r: Result<nat, MsgError>)
    ensures r.Ok? ==> HEADER_SIZE <= r.value <= |p|
  {
    if |p| < HEADER_SIZE then Err(ShortPacket) else SkipQuestions(p, HEADER_SIZE, U16(p, 4))
  }

  ghost function Answers(p: Bytes): Walk
    requires AnswersStart(p).Ok?
  {
    WalkFrom(p, AnswersStart(p).value, U16(p, 6))
  }

  /** The outcome of the byte-level rewrite; it does not depend on the address. */
  ghost function RewriteOutcome(p: Bytes): Result<(), MsgError> {
    var start :- AnswersStart(p);
    var answersEnd :- WalkFrom(p, start, U16(p, 6)).out;
    var end :- WalkFrom(p, answersEnd, U16(p, 8) + U16(p, 10)).out;
    if end != |p| then Err(TrailingBytes) else Ok(())
  }

  /** The bytes it leaves: every answer passed is rewritten, even when the walk fails later. */
  ghost function RewriteBytes(p: Bytes, ip: IpAddr): (q: Bytes)
    ensures |q| == |p|
  {
    match AnswersStart(p)
    case Err(_) => p
    case Ok(start) => p[..start] + Tail(p, start, U16(p, 6), ip)
  }

  // ---------------------------------------------------------------- the method

  lemma {:induction false} SpanSuffix(p: Bytes, q: Bytes, o: nat)
    requires |p| == |q| && o <= |p| && p[o..] == q[o..]
    ensures SpanAt(p, o) == SpanAt(q, o)
    ensures SpanAt(p, o).Ok? ==> forall ip: IpAddr ::
        Chosen(p, SpanAt(p, o).value, ip)
        == Chosen(q, SpanAt(q, o).value, ip)
  {
    SkipSuffix(p, q, o);
    assert forall i :: o <= i < |p| ==> p[i] == p[o..][i - o] == q[o..][i - o] == q[i];
  }

  lemma {:induction false} TailWritten(p: Bytes, q: Bytes, o: nat, n: nat, ip: IpAddr, written: Bytes)
    requires |p| == |q| && o <= |p| && p[o..] == q[o..]
    requires n > 0 && SpanAt(p, o).Ok?
    requires var s := SpanAt(p, o).value;
             written == q[..s.body + 10] + NewData(p, s, ip) + q[s.end..]
    ensures var s := SpanAt(p, o).value;
            && |written| == |p| && written[s.end..] == p[s.end..]
            && q[..o] + Tail(p, o, n, ip) == written[..s.end] + Tail(p, s.end, n - 1, ip)
  {
    var s := SpanAt(p, o).value;
    var rest := Tail(p, s.end, n - 1, ip);
    SuffixSlices(p, q, o, s.body + 10);
    SuffixSlices(p, q, o, s.end);
    hide SpanAt, NewData;
    assert written[s.end..] == q[s.end..];
    assert written[..s.end] == q[..s.body + 10] + NewData(p, s, ip);
    ConcatAssoc(p[o..s.body + 10], NewData(p, s, ip), rest);
    ConcatAssoc(q[..o], p[o..s.body + 10] + NewData(p, s, ip), rest);
    ConcatAssoc(q[..o], p[o..s.body + 10], NewData(p, s, ip));
  }

  /** Name::skip_wire and the bounds checks, on the packet as it stands. */
  method NextSpan(packet: array<byte>, offset: nat) returns (r: Result<Span, MsgError>)
    ensures r == SpanAt(packet[..], offset)
  {
    var p := packet[..];
    var body := SkipWire(p, offset);
    if body.Err? {
      return Err(body.error);
    }
    if |p| - body.value < 10 {
      return Err(ShortPacket);
    }
    var rdlen: nat := U16(p, body.value + 8);
    if |p| - (body.value + 10) < rdlen {
      return Err(InvalidRecord);
    }
    return Ok(Span(offset, body.value, body.value + 10 + rdlen));
  }

  method CopyFromSlice(packet: array<byte>, from: nat, octets: Bytes)
    requires from + |octets| <= packet.Length
    modifies packet
    ensures packet[..] == old(packet[..from]) + octets + old(packet[from + |octets|..])
  {
    ghost var was := packet[..];
    for i := 0 to |octets|
      invariant packet[..] == was[..from] + octets[..i] + was[from + i..]
    {
      packet[from + i] := octets[i];
    }
    assert octets[..|octets|] == octets;
  }

  method SkipQuestionSection(packet: array<byte>, count: nat) returns (r: Result<nat, MsgError>)
    requires packet.Length >= HEADER_SIZE
    ensures r == SkipQuestions(packet[..], HEADER_SIZE, count)
  {
    var offset: nat := HEADER_SIZE;
    for i := 0 to count
      invariant SkipQuestions(packet[..], offset, count - i) == SkipQuestions(packet[..], HEADER_SIZE, count)
    {
      var next := SkipWire(packet[..], offset);
      if next.Err? {
        return Err(next.error);
      }
      if packet.Length - next.value < 4 {
        return Err(ShortPacket);
      }
      offset := next.value + 4;
    }
    return Ok(offset);
  }

  method WalkSection(packet: array<byte>, start: nat, count: nat) returns (r: Result<nat, MsgError>)
    ensures r == WalkFrom(packet[..], start, count).out
  {
    var offset: nat := start;
    for i := 0 to count
      invariant WalkFrom(packet[..], offset, count - i).out == WalkFrom(packet[..], start, count).out
    {
      var span := NextSpan(packet, offset);
      if span.Err? {
        return Err(span.error);
      }
      offset := span.value.end;
    }
    return Ok(offset);
  }

  /** The answers loop between two records: `left` of them are still to come, the packet now reads `q`. */
  ghost predicate AnswersInv(p: Bytes, start: nat, count: nat, ip: IpAddr, q: Bytes, offset: nat, left: nat) {
    && |q| == |p| && start <= offset <= |p| && p[offset..] == q[offset..]
    && p[..start] + Tail(p, start, count, ip) == q[..offset] + Tail(p, offset, left, ip)
    && WalkFrom(p, offset, left).out == WalkFrom(p, start, count).out
  }

  lemma {:induction false} AnswersStop(p: Bytes, start: nat, count: nat, ip: IpAddr, q: Bytes, offset: nat, left: nat)
    requires AnswersInv(p, start, count, ip, q, offset, left)
    requires left == 0 || SpanAt(q, offset).Err?
    ensures |q| == |p| && start <= offset <= |p| && p[offset..] == q[offset..]
    ensures p[..start] + Tail(p, start, count, ip) == q
    ensures WalkFrom(p, start, count).out == if left == 0 then Ok(offset) else Err(SpanAt(q, offset).error)
  {
    SpanSuffix(p, q, offset);
    assert q == q[..offset] + q[offset..];
  }

  /** The packet with the data of one record replaced if the record is chosen. */
  function Overwritten(q: Bytes, s: Span, ip: IpAddr): Bytes
    requires s.In(q)
  {
    if Chosen(q, s, ip) then q[..s.body + 10] + ip.Octets() + q[s.end..] else q
  }

  method OverwriteAnswer(packet: array<byte>, s: Span, ip: IpAddr)
    requires s.In(packet[..])
    modifies packet
    ensures packet[..] == Overwritten(old(packet[..]), s, ip)
  {
    hide FromU16;
    ghost var q := packet[..];
    if Chosen(packet[..], s, ip) {
      CopyFromSlice(packet, s.body + 10, ip.Octets());
      assert q[..s.body + 10] == old(packet[..s.body + 10]) && q[s.end..] == old(packet[s.end..]);
    }
  }

  lemma {:induction false} Regrouped(q: Bytes, m: nat, n: nat)
    requires m <= n <= |q|
    ensures q == q[..m] + q[m..n] + q[n..]
  {
  }

  lemma {:induction false} WalkStep(p: Bytes, o: nat, n: nat)
    requires n > 0 && SpanAt(p, o).Ok?
    ensures WalkFrom(p, o, n).out == WalkFrom(p, SpanAt(p, o).value.end, n - 1).out
  {
    hide SpanAt;
  }

  lemma {:induction false} AnswersStep(p: Bytes, start: nat, count: nat, ip: IpAddr, q: Bytes, offset: nat, left: nat,
      written: Bytes)
    requires AnswersInv(p, start, count, ip, q, offset, left) && left > 0 && SpanAt(q, offset).Ok?
    requires written == Overwritten(q, SpanAt(q, offset).value, ip)
    ensures AnswersInv(p, start, count, ip, written, SpanAt(q, offset).value.end, left - 1)
  {
    hide SpanAt, Skip, FromU16, Selects, Tail, WalkFrom;
    var s := SpanAt(q, offset).value;
    SpanSuffix(p, q, offset);
    SuffixSlices(p, q, offset, s.body + 10);
    SuffixSlices(p, q, s.body + 10, s.end);
    Regrouped(q, s.body + 10, s.end);
    TailWritten(p, q, offset, left, ip, written);
    WalkStep(p, offset, left);
  }

  method RewriteAnswerSection(packet: array<byte>, start: nat, count: nat, ip: IpAddr)
    returns (r: Result<nat, MsgError>)
    requires start <= packet.Length
    modifies packet
    ensures packet[..] == old(packet[..])[..start] + Tail(old(packet[..]), start, count, ip)
    ensures r == WalkFrom(old(packet[..]), start, count).out
    ensures r.Ok? ==> r.value <= packet.Length && packet[..][r.value..] == old(packet[..])[r.value..]
  {
    ghost var p := packet[..];
    var offset: nat := start;
    assert AnswersInv(p, start, count, ip, p, start, count);
    hide AnswersInv, Tail, WalkFrom, SpanAt, Overwritten;
    for i := 0 to count
      invariant AnswersInv(p, start, count, ip, packet[..], offset, count - i)
    {
      ghost var q := packet[..];
      var span := NextSpan(packet, offset);
      if span.Err? {
        AnswersStop(p, start, count, ip, q, offset, count - i);
        return Err(span.error);
      }
      var s := span.value;
      OverwriteAnswer(packet, s, ip);
      AnswersStep(p, start, count, ip, q, offset, count - i, packet[..]);
      offset := s.end;
    }
    AnswersStop(p, start, count, ip, packet[..], offset, 0);
    return Ok(offset);
  }

  method RewriteAnswerIpsInPacket(packet: array<byte>, ip: IpAddr) returns (r: Result<(), MsgError>)
    modifies packet
    ensures packet[..] == RewriteBytes(old(packet[..]), ip)
    ensures r == RewriteOutcome(old(packet[..]))
  {
    hide WalkFrom, Tail, SkipQuestions, Skip;
    ghost var p := packet[..];
    if packet.Length < HEADER_SIZE {
      return Err(ShortPacket);
    }
    var qdcount: nat := U16(packet[..], 4);
    var ancount: nat := U16(packet[..], 6);
    var nscount: nat := U16(packet[..], 8);
    var arcount: nat := U16(packet[..], 10);
    var offset := SkipQuestionSection(packet, qdcount);
    if offset.Err? {
      return Err(offset.error);
    }
    offset := RewriteAnswerSection(packet, offset.value, ancount, ip);
    if offset.Err? {
      return Err(offset.error);
    }
    WalkSuffix(p, packet[..], offset.value, nscount + arcount);
    offset := WalkSection(packet, offset.value, nscount + arcount);
    if offset.Err? {
      return Err(offset.error);
    }
    if offset.value != packet.Length {
      return Err(TrailingBytes);
    }
    return Ok(());
  }

  lemma {:induction false} WalkSuffix(p: Bytes, q: Bytes, o: nat, n: nat)
    requires |p| == |q| && o <= |p| && p[o..] == q[o..]
    ensures WalkFrom(p, o, n) == WalkFrom(q, o, n)
    decreases n
  {
    if n > 0 {
      SpanSuffix(p, q, o);
      if SpanAt(p, o).Ok? {
        SuffixSlices(p, q, o, SpanAt(p, o).value.end);
        WalkSuffix(p, q, SpanAt(p, o).value.end, n - 1);
      }
    }
  }
}
