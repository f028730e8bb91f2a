/** Why the byte-level rewrite needs a hypothesis on names: replies the program can receive. */
module RewriteWitness {
  import opened Wire
  import opened Names
  import opened RrTypes
  import opened Messages
  import opened AnswerRewrite
  import opened RewriteRefinement
  import opened FastestSelection
  import opened Layout
  import opened Edns

  // ---------------------------------------------------------------- a reply whose second owner points into an address

  /** Header, root question, and the first answer up to its data at 28. */
  const FRONT: Bytes := [
    0, 1, 0x80, 0, 0, 1, 0, 2, 0, 0, 0, 0, 0, 0, 1, 0, 1,
    0, 0, 1, 0, 1, 0, 0, 0, 60, 0, 4]

  /** The second answer up to its data: its owner is the name read at 28. */
  const MIDDLE: Bytes := [0xC0, 28, 0, 1, 0, 1, 0, 0, 0, 60, 0, 4]

  function Address(x: byte, y: byte): IpAddr {
    V4([x, y, 0, 0])
  }

  /** Two A answers, `a`.`b`.0.0 and `x`.`y`.0.0; the owner of the second points into the data of the first. */
  function Reply(a: byte, b: byte, x: byte, y: byte): Bytes {
    FRONT + [a, b, 0, 0] + MIDDLE + [x, y, 0, 0]
  }

  lemma {:induction false} ReplyParts(a: byte, b: byte, x: byte, y: byte)
    ensures var p := Reply(a, b, x, y);
            && |p| == 48 && p[..28] == FRONT && p[28..32] == [a, b, 0, 0] && p[32..44] == MIDDLE
            && p[44..48] == [x, y, 0, 0] && p[28] == a && p[29] == b && p[30] == 0
  {
    var p := Reply(a, b, x, y);
    assert |FRONT| == 28 && |MIDDLE| == 12;
    hide FRONT, MIDDLE;
    assert p[28] == p[28..32][0] && p[29] == p[28..32][1] && p[30] == p[28..32][2];
  }

  lemma {:induction false} ReplyHeader(a: byte, b: byte, x: byte, y: byte)
    ensures var p := Reply(a, b, x, y);
            |p| == 48 && U16(p, 4) == 1 && U16(p, 6) == 2 && U16(p, 8) == 0 && U16(p, 10) == 0 && p[12] == 0
  {
  }

  lemma {:induction false} ReplyFirst(a: byte, b: byte, x: byte, y: byte)
    ensures var p := Reply(a, b, x, y);
            |p| == 48 && p[17] == 0 && U16(p, 18) == 1 && U16(p, 20) == 1 && U32(p, 22) == 60 && U16(p, 26) == 4
  {
  }

  lemma {:induction false} ReplySecond(a: byte, b: byte, x: byte, y: byte)
    ensures var p := Reply(a, b, x, y);
            && |p| == 48 && p[32] == 0xC0 && p[33] == 28 && U16(p, 34) == 1 && U16(p, 36) == 1 && U32(p, 38) == 60
            && U16(p, 42) == 4
  {
  }

  // ---------------------------------------------------------------- what the rewrite leaves

  lemma {:induction false} ReplySpans(a: byte, b: byte, x: byte, y: byte)
    ensures var p := Reply(a, b, x, y);
            && AnswersStart(p) == Ok(17) && U16(p, 6) == 2
            && SpanAt(p, 17) == Ok(Span(17, 18, 32)) && SpanAt(p, 32) == Ok(Span(32, 34, 48))
            && Chosen(p, Span(17, 18, 32), Address(x, y)) && Chosen(p, Span(32, 34, 48), Address(x, y))
  {
    hide Reply, U16, U32;
    var p := Reply(a, b, x, y);
    ReplyHeader(a, b, x, y);
    ReplyFirst(a, b, x, y);
    ReplySecond(a, b, x, y);
    assert Skip(p, 12) == Ok(13) && Skip(p, 17) == Ok(18) && Skip(p, 32) == Ok(34);
    assert SkipQuestions(p, 17, 0) == Ok(17);
  }

  /** Both addresses become the chosen one, and so the name at 28 becomes what its octets spell. */
  lemma {:induction false} ReplyRewritten(a: byte, b: byte, x: byte, y: byte)
    ensures RewriteBytes(Reply(a, b, x, y), Address(x, y)) == Reply(x, y, x, y)
  {
    hide FRONT, MIDDLE, Tail, SpanAt, Chosen, AnswersStart, RewriteBytes, U16;
    var p, ip := Reply(a, b, x, y), Address(x, y);
    var q := RewriteBytes(p, ip);
    ReplyParts(a, b, x, y);
    ReplySpans(a, b, x, y);
    RewrittenTail(p, ip);
    TailStep(p, 17, 2, ip);
    TailStep(p, 32, 1, ip);
    TailBase(p, 48, 0, ip);
    assert p[48..] == [];
    assert Tail(p, 17, 2, ip) == p[17..28] + ([x, y, 0, 0] + (p[32..44] + ([x, y, 0, 0] + [])));
    assert q == q[..17] + q[17..];
    assert p[..28] == p[..17] + p[17..28];
  }

  // ---------------------------------------------------------------- how such replies decode

  /** The second owner is the one letter `b` when the first address is 1.`b`.0.0. */
  lemma {:induction false} OneLetterOwner(b: byte, x: byte, y: byte)
    ensures DecodeName(Reply(1, b, x, y), 32) == Ok(Decoded([[b]], 34))
  {
    hide Reply, U16, U32;
    var p := Reply(1, b, x, y);
    ReplyParts(1, b, x, y);
    ReplySecond(1, b, x, y);
    assert PointerTarget(p, 32) == 28;
    assert Decode(p, 30, 1, 3) == Ok(Decoded([], 31));
    assert p[29..30] == [b] && [[b]] + [] == [[b]];
    assert Decode(p, 28, 1, 1) == Ok(Decoded([[b]], 31));
  }

  /** An octet from 64 to 191 in its place is no label length. */
  lemma {:induction false} NoLabelLength(a: byte, b: byte, x: byte, y: byte)
    requires 0x40 <= a < 0xC0
    ensures RecordAt(Reply(a, b, x, y), 32) == Err(InvalidLabelLength)
  {
    hide Reply, U16, U32;
    var p := Reply(a, b, x, y);
    ReplyParts(a, b, x, y);
    ReplySecond(a, b, x, y);
    assert PointerTarget(p, 32) == 28;
    assert Decode(p, 28, 1, 1) == Err(InvalidLabelLength);
  }

  function AnswerA(name: Labels, x: byte, y: byte): Record {
    Record(name, A, CLASS_IN, 60, [x, y, 0, 0])
  }

  lemma {:induction false} FirstAnswer(a: byte, b: byte, x: byte, y: byte)
    ensures QuestionAt(Reply(a, b, x, y), 12) == Ok((Question([], A, CLASS_IN), 17))
    ensures RecordAt(Reply(a, b, x, y), 17) == Ok((AnswerA([], a, b), 32))
  {
    hide Reply, U16, U32;
    var p := Reply(a, b, x, y);
    ReplyParts(a, b, x, y);
    ReplyHeader(a, b, x, y);
    ReplyFirst(a, b, x, y);
    ReplyQuestion(a, b, x, y);
    assert DecodeName(p, 12) == Ok(Decoded([], 13)) && DecodeName(p, 17) == Ok(Decoded([], 18));
  }

  lemma {:induction false} ReplyQuestion(a: byte, b: byte, x: byte, y: byte)
    ensures var p := Reply(a, b, x, y);
            |p| == 48 && U16(p, 13) == 1 && U16(p, 15) == 1
  {
  }

  lemma {:induction false} SecondAnswer(b: byte, x: byte, y: byte)
    ensures RecordAt(Reply(1, b, x, y), 32) == Ok((AnswerA([[b]], x, y), 48))
  {
    hide Reply, U16, U32, Decode, DecodeName;
    ReplyParts(1, b, x, y);
    ReplySecond(1, b, x, y);
    OneLetterOwner(b, x, y);
  }

  lemma {:induction false} ReplyDecodes(b: byte, x: byte, y: byte)
    ensures var m := Unpack(Reply(1, b, x, y));
            m.Ok? && m.value.answers == [AnswerA([], 1, b), AnswerA([[b]], x, y)]
  {
    hide Reply, RecordAt, QuestionAt, HeaderFromBits, U16, AnswerA;
    var p := Reply(1, b, x, y);
    ReplyHeader(1, b, x, y);
    FirstAnswer(1, b, x, y);
    SecondAnswer(b, x, y);
    var r0, r1 := AnswerA([], 1, b), AnswerA([[b]], x, y);
    assert Questions(p, 17, 0) == Ok(([], 17));
    assert Questions(p, 12, 1).Ok? && Questions(p, 12, 1).value.1 == 17;
    assert Section(p, 48, 0) == Ok(([], 48));
    assert [r1] + [] == [r1];
    assert Section(p, 32, 1) == Ok(([r1], 48));
    assert [r0] + [r1] == [r0, r1];
    assert Section(p, 17, 2) == Ok(([r0, r1], 48));
  }

  lemma {:induction false} ReplyFails(a: byte, b: byte, x: byte, y: byte)
    requires 0x40 <= a < 0xC0
    ensures Unpack(Reply(a, b, x, y)) == Err(InvalidLabelLength)
  {
    hide Reply, RecordAt, QuestionAt, HeaderFromBits, U16, AnswerA;
    var p := Reply(a, b, x, y);
    ReplyHeader(a, b, x, y);
    FirstAnswer(a, b, x, y);
    NoLabelLength(a, b, x, y);
    assert Questions(p, 17, 0) == Ok(([], 17));
    assert Questions(p, 12, 1).Ok? && Questions(p, 12, 1).value.1 == 17;
    assert Section(p, 32, 1) == Err(InvalidLabelLength);
    assert Section(p, 17, 2) == Err(InvalidLabelLength);
  }

  /** The TTL step follows no pointer: it accepts every such reply, whatever its addresses spell. */
  lemma {:induction false} ReplyHasTtl(a: byte, b: byte, x: byte, y: byte,
                                      minTtl: uint32, maxTtl: uint32, failureTtl: uint32)
    ensures MinTtl(Reply(a, b, x, y), minTtl, maxTtl, failureTtl).Ok?
  {
    hide Reply, U16, U32;
    var p := Reply(a, b, x, y);
    ReplyHeader(a, b, x, y);
    ReplyFirst(a, b, x, y);
    ReplySecond(a, b, x, y);
    assert SkipName(p, 12) == Ok(13) && SkipName(p, 17) == Ok(18) && SkipName(p, 32) == Ok(34);
    assert StepAt(p, 17) == Ok(Span(17, 18, 32)) && StepAt(p, 32) == Ok(Span(32, 34, 48));
    hide StepAt, SkipName;
    var least := if 60 < maxTtl then 60 else maxTtl;
    assert LeastTtl(p, 48, 0, least) == Ok(Least(least, 48));
    assert LeastTtl(p, 32, 1, least) == Ok(Least(least, 48));
    assert LeastTtl(p, 17, 2, maxTtl) == Ok(Least(least, 48));
  }

  // ---------------------------------------------------------------- the two failures

  lemma {:induction false} SecondIsCandidate(b: byte, x: byte, y: byte)
    requires x > 0
    ensures var p := Reply(1, b, x, y);
            && Candidate([p], Address(x, y)) && ReplyContains(p, Address(x, y)) && RewriteOutcome(p) == Ok(())
            && Answered([p], Address(x, y), p) == Reply(x, y, x, y)
  {
    hide Reply, Unpack, RewriteOutcome, RewriteBytes, AnswerIps;
    var p, ip := Reply(1, b, x, y), Address(x, y);
    ReplyDecodes(b, x, y);
    var answers := Unpack(p).value.answers;
    assert Selects(answers[1].rrType, answers[1].rrClass, |answers[1].rdata|, ip) && answers[1].rdata == ip.Octets();
    ListedIsContained(p, ip);
    assert ip.Octets()[0] in ip.Octets();
    assert [p][0] == p;
    assert Candidate([p], ip);
    AcceptedWalk(p);
    ReplyRewritten(1, b, x, y);
  }

  /**
    1.98.0.0 is a candidate the program may choose from this reply.  The rewrite succeeds, the
    TTL step accepts the answer, and its second owner `a` has become `b`: it is not the rewritten message.
   */
  lemma {:induction false} PointerIntoDataRenames(minTtl: uint32, maxTtl: uint32, failureTtl: uint32)
    ensures var p, ip := Reply(1, 97, 1, 98), Address(1, 98);
            var q := Answered([p], ip, p);
            && Unpack(p).Ok? && Candidate([p], ip) && RewriteOutcome(p) == Ok(())
            && MinTtl(q, minTtl, maxTtl, failureTtl).Ok?
            && Unpack(q).Ok? && |Unpack(q).value.answers| == 2 && |Unpack(p).value.answers| == 2
            && Unpack(p).value.answers[1].name == [[97]] && Unpack(q).value.answers[1].name == [[98]]
            && Unpack(q) != Ok(RewriteMsg(Unpack(p).value, ip))
  {
    hide Reply, Unpack, RewriteOutcome, Answered, Candidate, ReplyContains, MinTtl;
    SecondIsCandidate(97, 1, 98);
    ReplyHasTtl(1, 98, 1, 98, minTtl, maxTtl, failureTtl);
    ReplyDecodes(97, 1, 98);
    ReplyDecodes(98, 1, 98);
    var m := Unpack(Reply(1, 97, 1, 98)).value;
    RewriteKeepsName(m, 1, Address(1, 98));
  }

  lemma {:induction false} RewriteKeepsName(m: Msg, i: nat, ip: IpAddr)
    requires i < |m.answers|
    ensures RewriteMsg(m, ip).answers[i].name == m.answers[i].name
  {
  }

  /**
    128.98.0.0 makes the octet the pointer leads to no label length: the answer no longer decodes,
    though the rewrite succeeds and the TTL step accepts it.
   */
  lemma {:induction false} PointerIntoDataBreaks(minTtl: uint32, maxTtl: uint32, failureTtl: uint32)
    ensures var p, ip := Reply(1, 97, 128, 98), Address(128, 98);
            var q := Answered([p], ip, p);
            && Unpack(p).Ok? && Candidate([p], ip) && RewriteOutcome(p) == Ok(())
            && MinTtl(q, minTtl, maxTtl, failureTtl).Ok? && Unpack(q) == Err(InvalidLabelLength)
  {
    hide Reply, Unpack, RewriteOutcome, Answered, Candidate, ReplyContains, MinTtl;
    SecondIsCandidate(97, 128, 98);
    ReplyHasTtl(128, 98, 128, 98, minTtl, maxTtl, failureTtl);
    ReplyDecodes(97, 128, 98);
    ReplyFails(128, 98, 128, 98);
  }
}
