/** The byte-level answer rewrite refines the one on decoded messages. */
module RewriteRefinement {
  import opened Wire
  import opened Names
  import opened NameAgreement
  import opened NameFrames
  import opened RrTypes
  import opened Messages
  import opened CodecRoundTrip
  import opened AnswerRewrite

  // ---------------------------------------------------------------- the walk is kept

  /** The first record of a rewritten tail: its owner and fixed part unchanged, its data replaced. */
  lemma {:induction false} TailHead(p: Bytes, q: Bytes, o: nat, n: nat, ip: IpAddr)
    requires |p| == |q| && o <= |p| && q[o..] == Tail(p, o, n, ip) && n > 0 && SpanAt(p, o).Ok?
    ensures var s := SpanAt(p, o).value;
            && q[o..s.body + 10] == p[o..s.body + 10] && q[s.body + 10..s.end] == NewData(p, s, ip)
            && q[s.end..] == Tail(p, s.end, n - 1, ip)
  {
    var s := SpanAt(p, o).value;
    var rest := NewData(p, s, ip) + Tail(p, s.end, n - 1, ip);
    assert |p[o..s.body + 10]| == s.body + 10 - o;
    assert q[o..] == p[o..s.body + 10] + rest;
    assert q[o..s.body + 10] == q[o..][..s.body + 10 - o];
    assert q[s.body + 10..] == q[o..][s.body + 10 - o..] == rest;
    assert q[s.body + 10..s.end] == rest[..s.end - s.body - 10];
    assert q[s.end..] == rest[s.end - s.body - 10..];
  }

  lemma {:induction false} TailBase(p: Bytes, o: nat, n: nat, ip: IpAddr)
    requires o <= |p| && (n == 0 || SpanAt(p, o).Err?)
    ensures Tail(p, o, n, ip) == p[o..]
  {
  }

  lemma {:induction false} TailStep(p: Bytes, o: nat, n: nat, ip: IpAddr)
    requires o <= |p| && n > 0 && SpanAt(p, o).Ok?
    ensures var s := SpanAt(p, o).value;
            Tail(p, o, n, ip) == p[o..s.body + 10] + (NewData(p, s, ip) + Tail(p, s.end, n - 1, ip))
  {
  }

  lemma {:induction false} SpanKept(p: Bytes, q: Bytes, o: nat)
    requires |p| == |q| && SpanAt(p, o).Ok?
    requires q[o..SpanAt(p, o).value.body + 10] == p[o..SpanAt(p, o).value.body + 10]
    ensures SpanAt(q, o) == SpanAt(p, o)
    ensures forall i :: o <= i < SpanAt(p, o).value.body + 10 ==> q[i] == p[i]
  {
    var s := SpanAt(p, o).value;
    assert forall i :: o <= i < s.body + 10 ==> q[i] == q[o..s.body + 10][i - o] == p[o..s.body + 10][i - o] == p[i];
    assert q[o..s.body] == p[o..s.body];
    SkipLocal(p, o, q, o);
  }

  lemma {:induction false} WalkKept(p: Bytes, q: Bytes, o: nat, n: nat, ip: IpAddr)
    requires |p| == |q| && o <= |p| && q[o..] == Tail(p, o, n, ip)
    ensures WalkFrom(q, o, n) == WalkFrom(p, o, n)
    ensures WalkFrom(p, o, n).out.Ok? ==> q[WalkFrom(p, o, n).out.value..] == p[WalkFrom(p, o, n).out.value..]
    decreases n
  {
    hide SpanAt, Skip, NewData;
    if n > 0 {
      if SpanAt(p, o).Ok? {
        TailHead(p, q, o, n, ip);
        SpanKept(p, q, o);
        WalkKept(p, q, SpanAt(p, o).value.end, n - 1, ip);
      } else {
        SpanSuffix(p, q, o);
      }
    }
  }

  lemma {:induction false} SkipQuestionsKept(p: Bytes, q: Bytes, o: nat, n: nat)
    requires |p| == |q| && o <= |p| && SkipQuestions(p, o, n).Ok?
    requires q[o..SkipQuestions(p, o, n).value] == p[o..SkipQuestions(p, o, n).value]
    ensures SkipQuestions(q, o, n) == SkipQuestions(p, o, n)
    decreases n
  {
    if n > 0 {
      var next := Skip(p, o).value;
      var end := SkipQuestions(p, o, n).value;
      assert q[o..next] == q[o..end][..next - o] == p[o..end][..next - o] == p[o..next];
      SkipLocal(p, o, q, o);
      assert q[next + 4..end] == q[o..end][next + 4 - o..] == p[o..end][next + 4 - o..] == p[next + 4..end];
      SkipQuestionsKept(p, q, next + 4, n - 1);
    }
  }

  lemma {:induction false} PrefixKept(p: Bytes, q: Bytes)
    requires |p| == |q| && AnswersStart(p).Ok? && q[..AnswersStart(p).value] == p[..AnswersStart(p).value]
    ensures forall k :: 0 <= k < HEADER_SIZE ==> q[k] == p[k]
    ensures AnswersStart(q) == AnswersStart(p)
  {
    var start := AnswersStart(p).value;
    assert forall k :: 0 <= k < start ==> q[k] == q[..start][k] == p[..start][k] == p[k];
    assert q[HEADER_SIZE..start] == p[HEADER_SIZE..start];
    SkipQuestionsKept(p, q, HEADER_SIZE, U16(p, 4));
  }

  lemma {:induction false} RewrittenTail(p: Bytes, ip: IpAddr)
    requires AnswersStart(p).Ok?
    ensures var start := AnswersStart(p).value;
            var q := RewriteBytes(p, ip);
            q[..start] == p[..start] && q[start..] == Tail(p, start, U16(p, 6), ip)
  {
  }

  /** The walk over the authority and additional records. */
  ghost function OtherRecords(p: Bytes): Walk
    requires AnswersStart(p).Ok? && Answers(p).out.Ok?
  {
    WalkFrom(p, Answers(p).out.value, U16(p, 8) + U16(p, 10))
  }

  /** Rewriting changes neither the walk nor its outcome, whatever the packet's names point at. */
  lemma {:induction false} RewriteKeepsWalk(p: Bytes, ip: IpAddr)
    ensures var q := RewriteBytes(p, ip);
            && RewriteOutcome(q) == RewriteOutcome(p)
            && AnswersStart(q) == AnswersStart(p)
            && (AnswersStart(p).Ok? ==> Answers(q) == Answers(p))
            && (AnswersStart(p).Ok? && Answers(p).out.Ok? ==> OtherRecords(q) == OtherRecords(p))
  {
    hide Tail, WalkFrom, SkipQuestions;
    if AnswersStart(p).Ok? {
      var q := RewriteBytes(p, ip);
      var start := AnswersStart(p).value;
      RewrittenTail(p, ip);
      PrefixKept(p, q);
      WalkKept(p, q, start, U16(p, 6), ip);
      var answers := WalkFrom(p, start, U16(p, 6)).out;
      if answers.Ok? {
        WalkSuffix(p, q, answers.value, U16(p, 8) + U16(p, 10));
      }
    }
  }

  // ---------------------------------------------------------------- which bytes change

  ghost predicate InChosenData(p: Bytes, spans: seq<Span>, ip: IpAddr, i: nat)
    requires forall s :: s in spans ==> s.In(p)
  {
    exists s :: s in spans && Chosen(p, s, ip) && s.body + 10 <= i < s.end
  }

  lemma {:induction false} TailElsewhere(p: Bytes, q: Bytes, o: nat, n: nat, ip: IpAddr, i: nat)
    requires |p| == |q| && o <= i < |p| && q[o..] == Tail(p, o, n, ip)
    requires !InChosenData(p, WalkFrom(p, o, n).spans, ip, i)
    ensures q[i] == p[i]
    decreases n
  {
    hide Tail, SpanAt, Skip, Chosen;
    if n == 0 || SpanAt(p, o).Err? {
      TailBase(p, o, n, ip);
      assert q[i] == q[o..][i - o] == p[o..][i - o] == p[i];
    } else {
      var s := SpanAt(p, o).value;
      var all := WalkFrom(p, o, n).spans;
      TailHead(p, q, o, n, ip);
      assert s == all[0] && s in all;
      if i < s.body + 10 {
        assert q[i] == q[o..s.body + 10][i - o] == p[o..s.body + 10][i - o] == p[i];
      } else if i < s.end {
        assert q[i] == q[s.body + 10..s.end][i - s.body - 10] == p[s.body + 10..s.end][i - s.body - 10];
      } else {
        var rest := WalkFrom(p, s.end, n - 1).spans;
        assert all == [s] + rest;
        TailElsewhere(p, q, s.end, n - 1, ip, i);
      }
    }
  }

  lemma {:induction false} TailData(p: Bytes, q: Bytes, o: nat, n: nat, ip: IpAddr, s: Span)
    requires |p| == |q| && o <= |p| && q[o..] == Tail(p, o, n, ip) && s in WalkFrom(p, o, n).spans
    ensures s.In(p) && q[s.body + 10..s.end] == NewData(p, s, ip)
    decreases n
  {
    hide Tail, SpanAt, Skip, Chosen, NewData;
    TailHead(p, q, o, n, ip);
    var first := SpanAt(p, o).value;
    if s != first {
      assert s in WalkFrom(p, first.end, n - 1).spans;
      TailData(p, q, first.end, n - 1, ip, s);
    }
  }

  /** Every byte outside the data of a chosen answer is untouched, and that data becomes the address. */
  lemma {:induction false} RewriteChangesOnlyChosenData(p: Bytes, ip: IpAddr)
    requires AnswersStart(p).Ok?
    ensures var q := RewriteBytes(p, ip);
            && (forall i: nat :: i < |p| && !InChosenData(p, Answers(p).spans, ip, i) ==> q[i] == p[i])
            && (forall s :: s in Answers(p).spans && Chosen(p, s, ip) ==> q[s.body + 10..s.end] == ip.Octets())
  {
    var q := RewriteBytes(p, ip);
    var start := AnswersStart(p).value;
    RewrittenTail(p, ip);
    forall i: nat | i < |p| && !InChosenData(p, Answers(p).spans, ip, i)
      ensures q[i] == p[i]
    {
      if i < start {
        assert q[i] == q[..start][i] == p[..start][i] == p[i];
      } else {
        TailElsewhere(p, q, start, U16(p, 6), ip, i);
      }
    }
    forall s | s in Answers(p).spans && Chosen(p, s, ip)
      ensures q[s.body + 10..s.end] == ip.Octets()
    {
      TailData(p, q, start, U16(p, 6), ip, s);
    }
  }

  /** The data of each answer passed, in the octets of the packet. */
  lemma {:induction false} RewriteInOctets(p: Bytes, ip: IpAddr, s: Span)
    requires AnswersStart(p).Ok? && s in Answers(p).spans
    ensures s.In(p)
    ensures RewriteBytes(p, ip)[s.body + 10..s.end]
         == if HoldsAddress(p, s, ip) then (match ip case V4(octets) => octets case V6(octets) => octets)
            else p[s.body + 10..s.end]
  {
    hide Tail, Chosen;
    var start := AnswersStart(p).value;
    RewrittenTail(p, ip);
    TailData(p, RewriteBytes(p, ip), start, U16(p, 6), ip, s);
    ChosenInOctets(p, s, ip);
  }

  lemma {:induction false} ChosenKept(p: Bytes, q: Bytes, o: nat, ip: IpAddr)
    requires |p| == |q| && SpanAt(p, o).Ok?
    requires var s := SpanAt(p, o).value;
             q[o..s.body + 10] == p[o..s.body + 10] && q[s.body + 10..s.end] == NewData(p, s, ip)
    ensures NewData(q, SpanAt(p, o).value, ip) == NewData(p, SpanAt(p, o).value, ip)
  {
    hide SpanAt, Skip;
    SpanKept(p, q, o);
  }

  lemma {:induction false} TailTwice(p: Bytes, q: Bytes, o: nat, n: nat, ip: IpAddr)
    requires |p| == |q| && o <= |p| && q[o..] == Tail(p, o, n, ip)
    ensures Tail(q, o, n, ip) == Tail(p, o, n, ip)
    decreases n
  {
    hide Tail, SpanAt, Skip, NewData;
    if n > 0 && SpanAt(p, o).Ok? {
      var s := SpanAt(p, o).value;
      TailHead(p, q, o, n, ip);
      SpanKept(p, q, o);
      TailTwice(p, q, s.end, n - 1, ip);
      ChosenKept(p, q, o, ip);
      TailStep(p, o, n, ip);
      TailStep(q, o, n, ip);
    } else {
      TailBase(p, o, n, ip);
      if n > 0 {
        SpanSuffix(p, q, o);
      }
      TailBase(q, o, n, ip);
    }
  }

  /** Rewriting twice is rewriting once. */
  lemma {:induction false} RewriteIdempotent(p: Bytes, ip: IpAddr)
    ensures RewriteBytes(RewriteBytes(p, ip), ip) == RewriteBytes(p, ip)
  {
    hide Tail, WalkFrom, SkipQuestions;
    if AnswersStart(p).Ok? {
      var q := RewriteBytes(p, ip);
      RewrittenTail(p, ip);
      PrefixKept(p, q);
      TailTwice(p, q, AnswersStart(p).value, U16(p, 6), ip);
    } else {
      RewriteKeepsWalk(p, ip);
    }
  }

  // ---------------------------------------------------------------- refinement

  /** The decoder reads none of these positions for the name at `o`. */
  ghost predicate NameAvoids(p: Bytes, o: nat, positions: set<nat>)
    requires DecodeName(p, o).Ok?
  {
    forall i :: i in positions ==> !DecodeReads(p, o, 0, 1, i)
  }

  ghost predicate OwnersAvoid(p: Bytes, o: nat, n: nat, positions: set<nat>)
    requires Section(p, o, n).Ok?
    decreases n
  {
    n == 0 || (NameAvoids(p, o, positions) && OwnersAvoid(p, RecordAt(p, o).value.1, n - 1, positions))
  }

  ghost predicate QuestionNamesAvoid(p: Bytes, o: nat, n: nat, positions: set<nat>)
    requires Questions(p, o, n).Ok?
    decreases n
  {
    n == 0 || (NameAvoids(p, o, positions) && QuestionNamesAvoid(p, QuestionAt(p, o).value.1, n - 1, positions))
  }

  /** Where the second packet, which may be longer, differs from the first. */
  ghost function Changed(p: Bytes, q: Bytes): set<nat>
    requires |p| <= |q|
  {
    set i: nat | i < |p| && q[i] != p[i]
  }

  /** The data of the answers the rewrite chooses. */
  ghost function ChosenData(p: Bytes, ip: IpAddr): set<nat> {
    if AnswersStart(p).Err? then {} else set i: nat | i < |p| && InChosenData(p, Answers(p).spans, ip, i)
  }

  /** The two packets hold the same name at `o`, and go on after it at the same place. */
  predicate NameSame(p: Bytes, q: Bytes, o: nat) {
    DecodeName(q, o) == DecodeName(p, o)
  }

  predicate OwnersSame(p: Bytes, q: Bytes, o: nat, n: nat)
    requires Section(p, o, n).Ok?
    decreases n
  {
    n == 0 || (NameSame(p, q, o) && OwnersSame(p, q, RecordAt(p, o).value.1, n - 1))
  }

  predicate QuestionNamesSame(p: Bytes, q: Bytes, o: nat, n: nat)
    requires Questions(p, o, n).Ok?
    decreases n
  {
    n == 0 || (NameSame(p, q, o) && QuestionNamesSame(p, q, QuestionAt(p, o).value.1, n - 1))
  }

  lemma {:induction false} NameAvoidsSame(p: Bytes, q: Bytes, o: nat)
    requires |p| <= |q| && DecodeName(p, o).Ok? && NameAvoids(p, o, Changed(p, q))
    ensures NameSame(p, q, o)
  {
    forall i: nat | i < |p| && DecodeReads(p, o, 0, 1, i)
      ensures q[i] == p[i]
    {
      assert i !in Changed(p, q);
    }
    DecodeFrame(p, q, o, 0, 1);
  }

  lemma {:induction false} OwnersAvoidSame(p: Bytes, q: Bytes, o: nat, n: nat)
    requires |p| <= |q| && Section(p, o, n).Ok? && OwnersAvoid(p, o, n, Changed(p, q))
    ensures OwnersSame(p, q, o, n)
    decreases n
  {
    hide Decode, FromU16, NameAvoids, NameSame;
    if n > 0 {
      NameAvoidsSame(p, q, o);
      OwnersAvoidSame(p, q, RecordAt(p, o).value.1, n - 1);
    }
  }

  lemma {:induction false} QuestionNamesAvoidSame(p: Bytes, q: Bytes, o: nat, n: nat)
    requires |p| <= |q| && Questions(p, o, n).Ok? && QuestionNamesAvoid(p, o, n, Changed(p, q))
    ensures QuestionNamesSame(p, q, o, n)
    decreases n
  {
    hide Decode, FromU16, NameAvoids, NameSame;
    if n > 0 {
      NameAvoidsSame(p, q, o);
      QuestionNamesAvoidSame(p, q, QuestionAt(p, o).value.1, n - 1);
    }
  }

  lemma {:induction false} OwnersAvoidFewer(p: Bytes, o: nat, n: nat, positions: set<nat>, fewer: set<nat>)
    requires Section(p, o, n).Ok? && OwnersAvoid(p, o, n, positions) && fewer <= positions
    ensures OwnersAvoid(p, o, n, fewer)
    decreases n
  {
    hide Decode, FromU16;
    if n > 0 {
      OwnersAvoidFewer(p, RecordAt(p, o).value.1, n - 1, positions, fewer);
    }
  }

  lemma {:induction false} QuestionNamesAvoidFewer(p: Bytes, o: nat, n: nat, positions: set<nat>, fewer: set<nat>)
    requires Questions(p, o, n).Ok? && QuestionNamesAvoid(p, o, n, positions) && fewer <= positions
    ensures QuestionNamesAvoid(p, o, n, fewer)
    decreases n
  {
    hide Decode, FromU16;
    if n > 0 {
      QuestionNamesAvoidFewer(p, QuestionAt(p, o).value.1, n - 1, positions, fewer);
    }
  }

  /** Section boundaries of an accepted packet. */
  ghost function Bounds(p: Bytes): (b: (nat, nat, nat))
    requires Unpack(p).Ok?
    ensures HEADER_SIZE <= b.0 <= b.1 <= b.2 <= |p|
  {
    var o1 := Questions(p, HEADER_SIZE, U16(p, 4)).value.1;
    var o2 := Section(p, o1, U16(p, 6)).value.1;
    (o1, o2, Section(p, o2, U16(p, 8)).value.1)
  }

  /** No name decoded anywhere in the accepted packet `p` reads one of these positions. */
  ghost predicate NamesAvoid(p: Bytes, positions: set<nat>)
    requires Unpack(p).Ok?
  {
    var (o1, o2, o3) := Bounds(p);
    && QuestionNamesAvoid(p, HEADER_SIZE, U16(p, 4), positions) && OwnersAvoid(p, o1, U16(p, 6), positions)
    && OwnersAvoid(p, o2, U16(p, 8), positions) && OwnersAvoid(p, o3, U16(p, 10), positions)
  }

  /** Every name decoded in the accepted packet `p` is in `q`, at the same place, the same name. */
  ghost predicate NamesSame(p: Bytes, q: Bytes)
    requires Unpack(p).Ok?
  {
    var (o1, o2, o3) := Bounds(p);
    && QuestionNamesSame(p, q, HEADER_SIZE, U16(p, 4)) && OwnersSame(p, q, o1, U16(p, 6))
    && OwnersSame(p, q, o2, U16(p, 8)) && OwnersSame(p, q, o3, U16(p, 10))
  }

  lemma {:induction false} NamesAvoidSame(p: Bytes, q: Bytes)
    requires |p| <= |q| && Unpack(p).Ok? && NamesAvoid(p, Changed(p, q))
    ensures NamesSame(p, q)
  {
    hide OwnersAvoid, OwnersSame, QuestionNamesAvoid, QuestionNamesSame, Section, Questions, HeaderFromBits, Changed;
    var (o1, o2, o3) := Bounds(p);
    QuestionNamesAvoidSame(p, q, HEADER_SIZE, U16(p, 4));
    OwnersAvoidSame(p, q, o1, U16(p, 6));
    OwnersAvoidSame(p, q, o2, U16(p, 8));
    OwnersAvoidSame(p, q, o3, U16(p, 10));
  }

  lemma {:induction false} NamesAvoidFewer(p: Bytes, positions: set<nat>, fewer: set<nat>)
    requires Unpack(p).Ok? && NamesAvoid(p, positions) && fewer <= positions
    ensures NamesAvoid(p, fewer)
  {
    hide OwnersAvoid, QuestionNamesAvoid, Section, Questions, HeaderFromBits;
    var (o1, o2, o3) := Bounds(p);
    QuestionNamesAvoidFewer(p, HEADER_SIZE, U16(p, 4), positions, fewer);
    OwnersAvoidFewer(p, o1, U16(p, 6), positions, fewer);
    OwnersAvoidFewer(p, o2, U16(p, 8), positions, fewer);
    OwnersAvoidFewer(p, o3, U16(p, 10), positions, fewer);
  }

  lemma {:induction false} RecordSpan(p: Bytes, o: nat)
    requires RecordAt(p, o).Ok?
    ensures SpanAt(p, o) == Ok(Span(o, DecodeName(p, o).value.next, RecordAt(p, o).value.1))
  {
    DecodeSkip(p, o, 0, 1);
  }

  /** The decoder's record walk is the rewriter's: same records, same end. */
  lemma {:induction false} SectionWalk(p: Bytes, o: nat, n: nat)
    requires Section(p, o, n).Ok?
    ensures WalkFrom(p, o, n).out == Ok(Section(p, o, n).value.1)
    ensures |WalkFrom(p, o, n).spans| == n
    decreases n
  {
    hide SpanAt, Skip, Decode, FromU16, U32;
    if n > 0 {
      RecordSpan(p, o);
      SectionWalk(p, RecordAt(p, o).value.1, n - 1);
    }
  }

  lemma {:induction false} WalkAppend(p: Bytes, o: nat, m: nat, n: nat)
    requires WalkFrom(p, o, m).out.Ok?
    ensures WalkFrom(p, o, m + n).out == WalkFrom(p, WalkFrom(p, o, m).out.value, n).out
    decreases m
  {
    if m > 0 {
      WalkAppend(p, SpanAt(p, o).value.end, m - 1, n);
    }
  }

  lemma {:induction false} QuestionsWalk(p: Bytes, o: nat, n: nat)
    requires Questions(p, o, n).Ok?
    ensures SkipQuestions(p, o, n) == Ok(Questions(p, o, n).value.1)
    decreases n
  {
    if n > 0 {
      DecodeSkip(p, o, 0, 1);
      QuestionsWalk(p, QuestionAt(p, o).value.1, n - 1);
    }
  }

  // ---------------------------------------------------------------- what the walk accepts

  predicate OwnersDecode(p: Bytes, o: nat, n: nat)
    decreases n
  {
    n == 0 || (SpanAt(p, o).Ok? && DecodeName(p, o).Ok? && OwnersDecode(p, SpanAt(p, o).value.end, n - 1))
  }

  predicate QuestionNamesDecode(p: Bytes, o: nat, n: nat)
    decreases n
  {
    n == 0 || (DecodeName(p, o).Ok? && QuestionNamesDecode(p, DecodeName(p, o).value.next + 4, n - 1))
  }

  lemma {:induction false} RecordIff(p: Bytes, o: nat)
    ensures RecordAt(p, o).Ok? <==> SpanAt(p, o).Ok? && DecodeName(p, o).Ok?
    ensures RecordAt(p, o).Ok? ==> RecordAt(p, o).value.1 == SpanAt(p, o).value.end
  {
    hide Decode, FromU16;
    if DecodeName(p, o).Ok? {
      DecodeSkip(p, o, 0, 1);
    }
  }

  /** Which error a record gives, to the decoder and to the rewriter's walk. */
  lemma {:induction false} RecordRefusedFor(p: Bytes, o: nat)
    ensures DecodeName(p, o).Err? ==> RecordAt(p, o) == Err(DecodeName(p, o).error)
    ensures Skip(p, o).Err? ==> SpanAt(p, o) == Err(Skip(p, o).error)
    ensures Skip(p, o).Ok? && Skip(p, o).value + 10 > |p| ==>
              SpanAt(p, o) == Err(ShortPacket) && (DecodeName(p, o).Ok? ==> RecordAt(p, o) == Err(ShortPacket))
    ensures Skip(p, o).Ok? && Skip(p, o).value + 10 <= |p|
            && Skip(p, o).value + 10 + p[Skip(p, o).value + 8] as int * 256 + p[Skip(p, o).value + 9] as int > |p| ==>
              SpanAt(p, o) == Err(InvalidRecord) && (DecodeName(p, o).Ok? ==> RecordAt(p, o) == Err(InvalidRecord))
  {
    hide Decode, Skip, FromU16;
    if DecodeName(p, o).Ok? {
      DecodeSkip(p, o, 0, 1);
    }
  }

  lemma {:induction false} SectionIff(p: Bytes, o: nat, n: nat)
    ensures Section(p, o, n).Ok? <==> WalkFrom(p, o, n).out.Ok? && OwnersDecode(p, o, n)
    decreases n
  {
    hide RecordAt, SpanAt, DecodeName;
    if n > 0 {
      RecordIff(p, o);
      if RecordAt(p, o).Ok? {
        SectionIff(p, RecordAt(p, o).value.1, n - 1);
      }
    }
  }

  lemma {:induction false} QuestionsIff(p: Bytes, o: nat, n: nat)
    ensures Questions(p, o, n).Ok? <==> SkipQuestions(p, o, n).Ok? && QuestionNamesDecode(p, o, n)
    decreases n
  {
    hide Decode, FromU16;
    if n > 0 && DecodeName(p, o).Ok? {
      DecodeSkip(p, o, 0, 1);
      QuestionsIff(p, DecodeName(p, o).value.next + 4, n - 1);
    }
  }

  lemma {:induction false} OwnersDecodeAppend(p: Bytes, o: nat, m: nat, n: nat)
    requires WalkFrom(p, o, m).out.Ok?
    ensures OwnersDecode(p, o, m + n) <==> OwnersDecode(p, o, m) && OwnersDecode(p, WalkFrom(p, o, m).out.value, n)
    ensures WalkFrom(p, o, m + n).out == WalkFrom(p, WalkFrom(p, o, m).out.value, n).out
    decreases m
  {
    hide SpanAt, DecodeName;
    if m > 0 {
      OwnersDecodeAppend(p, SpanAt(p, o).value.end, m - 1, n);
    }
  }

  lemma {:induction false} WalkShorter(p: Bytes, o: nat, m: nat, n: nat)
    requires WalkFrom(p, o, m + n).out.Ok?
    ensures WalkFrom(p, o, m).out.Ok?
    decreases m
  {
    hide SpanAt;
    if m > 0 {
      WalkShorter(p, SpanAt(p, o).value.end, m - 1, n);
    }
  }

  /** Every name of a question and every owner on the rewriter's way decodes. */
  ghost predicate NamesDecode(p: Bytes) {
    && AnswersStart(p).Ok? && QuestionNamesDecode(p, HEADER_SIZE, U16(p, 4))
    && OwnersDecode(p, AnswersStart(p).value, U16(p, 6))
    && Answers(p).out.Ok? && OwnersDecode(p, Answers(p).out.value, U16(p, 8) + U16(p, 10))
  }

  /** The rewrite succeeds on exactly the packets the decoder accepts, up to what is wrong inside a name. */
  lemma {:induction false} AcceptedIffWalks(p: Bytes)
    ensures Unpack(p).Ok? <==> RewriteOutcome(p) == Ok(()) && NamesDecode(p)
  {
    hide WalkFrom, Section, Questions, SkipQuestions, HeaderFromBits, OwnersDecode, QuestionNamesDecode;
    if |p| >= HEADER_SIZE {
      QuestionsIff(p, HEADER_SIZE, U16(p, 4));
      if Questions(p, HEADER_SIZE, U16(p, 4)).Ok? {
        var o1 := Questions(p, HEADER_SIZE, U16(p, 4)).value.1;
        QuestionsWalk(p, HEADER_SIZE, U16(p, 4));
        SectionIff(p, o1, U16(p, 6));
        if Section(p, o1, U16(p, 6)).Ok? {
          SectionWalk(p, o1, U16(p, 6));
          OthersIff(p, Section(p, o1, U16(p, 6)).value.1, U16(p, 8), U16(p, 10));
        }
      }
    }
  }

  lemma {:induction false} OthersIff(p: Bytes, o: nat, m: nat, n: nat)
    ensures Section(p, o, m).Ok? && Section(p, Section(p, o, m).value.1, n).Ok? <==>
              WalkFrom(p, o, m + n).out.Ok? && OwnersDecode(p, o, m + n)
    ensures Section(p, o, m).Ok? && Section(p, Section(p, o, m).value.1, n).Ok? ==>
              WalkFrom(p, o, m + n).out.value == Section(p, Section(p, o, m).value.1, n).value.1
  {
    hide WalkFrom, Section, OwnersDecode;
    SectionIff(p, o, m);
    if WalkFrom(p, o, m).out.Ok? {
      OwnersDecodeAppend(p, o, m, n);
      if Section(p, o, m).Ok? {
        SectionWalk(p, o, m);
        var mid := Section(p, o, m).value.1;
        SectionIff(p, mid, n);
        if Section(p, mid, n).Ok? {
          SectionWalk(p, mid, n);
        }
      }
    } else if WalkFrom(p, o, m + n).out.Ok? {
      WalkShorter(p, o, m, n);
    }
  }

  /** One answer: same name, same fixed part, data replaced when the message-level rewrite replaces it. */
  lemma {:induction false} RecordRewritten(p: Bytes, q: Bytes, o: nat, ip: IpAddr)
    requires |p| == |q| && RecordAt(p, o).Ok? && NameSame(p, q, o)
    requires SpanAt(p, o).Ok?
    requires var s := SpanAt(p, o).value;
             q[o..s.body + 10] == p[o..s.body + 10] && q[s.body + 10..s.end] == NewData(p, s, ip)
    ensures RecordAt(q, o).Ok?
    ensures RecordAt(q, o).value.0 == RewriteRecord(RecordAt(p, o).value.0, ip)
    ensures RecordAt(q, o).value.1 == RecordAt(p, o).value.1
  {
    hide Decode, FromU16;
    RecordSpan(p, o);
    SpanKept(p, q, o);
  }

  lemma {:induction false} SectionRewritten(p: Bytes, q: Bytes, o: nat, n: nat, ip: IpAddr)
    requires |p| == |q| && o <= |p| && Section(p, o, n).Ok? && OwnersSame(p, q, o, n)
    requires q[o..] == Tail(p, o, n, ip)
    ensures Section(q, o, n) == Ok((RewriteRecords(Section(p, o, n).value.0, ip), Section(p, o, n).value.1))
    decreases n
  {
    hide Tail, SpanAt, RecordAt, NameSame, NewData;
    if n > 0 {
      var (rr, next) := RecordAt(p, o).value;
      var rest := Section(p, next, n - 1).value.0;
      RecordSpan(p, o);
      TailHead(p, q, o, n, ip);
      RecordRewritten(p, q, o, ip);
      SectionRewritten(p, q, next, n - 1, ip);
      assert RewriteRecords([rr] + rest, ip) == [RewriteRecord(rr, ip)] + RewriteRecords(rest, ip);
    }
  }

  lemma {:induction false} RecordKept(p: Bytes, q: Bytes, o: nat)
    requires |p| == |q| && o <= |p| && RecordAt(p, o).Ok? && NameSame(p, q, o) && q[o..] == p[o..]
    ensures RecordAt(q, o) == RecordAt(p, o)
    ensures q[RecordAt(p, o).value.1..] == p[RecordAt(p, o).value.1..]
  {
    hide Decode, FromU16;
    var next := DecodeName(p, o).value.next;
    var end := RecordAt(p, o).value.1;
    SuffixSlices(p, q, o, next);
    SuffixSlices(p, q, next, next + 10);
    SuffixSlices(p, q, next + 10, end);
    assert forall i :: next <= i < next + 10 ==> p[i] == p[next..][i - next] == q[next..][i - next] == q[i];
  }

  lemma {:induction false} SectionKept(p: Bytes, q: Bytes, o: nat, n: nat)
    requires |p| == |q| && o <= |p| && Section(p, o, n).Ok? && OwnersSame(p, q, o, n) && q[o..] == p[o..]
    ensures Section(q, o, n) == Section(p, o, n)
    decreases n
  {
    hide RecordAt, NameSame;
    if n > 0 {
      RecordKept(p, q, o);
      SectionKept(p, q, RecordAt(p, o).value.1, n - 1);
    }
  }

  lemma {:induction false} QuestionKept(p: Bytes, q: Bytes, o: nat)
    requires |p| <= |q| && o <= |p| && QuestionAt(p, o).Ok? && NameSame(p, q, o)
    requires forall i :: o <= i < QuestionAt(p, o).value.1 ==> q[i] == p[i]
    ensures QuestionAt(q, o) == QuestionAt(p, o)
  {
    hide Decode, FromU16;
  }

  lemma {:induction false} QuestionsKept(p: Bytes, q: Bytes, o: nat, n: nat)
    requires |p| <= |q| && o <= |p| && Questions(p, o, n).Ok? && QuestionNamesSame(p, q, o, n)
    requires forall i :: o <= i < Questions(p, o, n).value.1 ==> q[i] == p[i]
    ensures Questions(q, o, n) == Questions(p, o, n)
    decreases n
  {
    hide QuestionAt, NameSame;
    if n > 0 {
      QuestionKept(p, q, o);
      QuestionsKept(p, q, QuestionAt(p, o).value.1, n - 1);
    }
  }

  lemma {:induction false} AcceptedWalk(p: Bytes)
    requires Unpack(p).Ok?
    ensures AnswersStart(p) == Ok(Bounds(p).0)
    ensures WalkFrom(p, Bounds(p).0, U16(p, 6)).out == Ok(Bounds(p).1)
    ensures RewriteOutcome(p) == Ok(())
  {
    hide WalkFrom, Section, Questions, SkipQuestions, HeaderFromBits;
    var (o1, o2, o3) := Bounds(p);
    QuestionsWalk(p, HEADER_SIZE, U16(p, 4));
    SectionWalk(p, o1, U16(p, 6));
    SectionWalk(p, o2, U16(p, 8));
    SectionWalk(p, o3, U16(p, 10));
    WalkAppend(p, o2, U16(p, 8), U16(p, 10));
  }

  lemma {:induction false} SameNamesRefine(p: Bytes, ip: IpAddr)
    requires Unpack(p).Ok? && NamesSame(p, RewriteBytes(p, ip))
    ensures Unpack(RewriteBytes(p, ip)) == Ok(RewriteMsg(Unpack(p).value, ip))
  {
    hide Tail, WalkFrom, Section, Questions, SkipQuestions, HeaderFromBits, OwnersSame, QuestionNamesSame,
      RewriteRecords;
    var q := RewriteBytes(p, ip);
    var (o1, o2, o3) := Bounds(p);
    AcceptedWalk(p);
    RewrittenTail(p, ip);
    PrefixKept(p, q);
    WalkKept(p, q, o1, U16(p, 6), ip);
    assert forall i :: 0 <= i < o1 ==> q[i] == q[..o1][i] == p[..o1][i] == p[i];
    QuestionsKept(p, q, HEADER_SIZE, U16(p, 4));
    SectionRewritten(p, q, o1, U16(p, 6), ip);
    SectionKept(p, q, o2, U16(p, 8));
    SuffixSlices(p, q, o2, o3);
    SectionKept(p, q, o3, U16(p, 10));
  }

  ghost predicate SameOwners(a: seq<Record>, b: seq<Record>) {
    |a| == |b| && forall i :: 0 <= i < |a| ==> b[i].name == a[i].name
  }

  lemma {:induction false} SameOwnersCons(x: Record, a: seq<Record>, y: Record, b: seq<Record>)
    requires SameOwners([x] + a, [y] + b)
    ensures y.name == x.name && SameOwners(a, b)
  {
    var s, t := [x] + a, [y] + b;
    assert t[0].name == s[0].name;
    forall i | 0 <= i < |a|
      ensures b[i].name == a[i].name
    {
      assert t[i + 1].name == s[i + 1].name;
    }
  }

  lemma {:induction false} SectionCons(p: Bytes, o: nat, n: nat)
    requires n > 0 && Section(p, o, n).Ok?
    ensures RecordAt(p, o).Ok? && Section(p, RecordAt(p, o).value.1, n - 1).Ok?
    ensures Section(p, o, n).value.0 == [RecordAt(p, o).value.0] + Section(p, RecordAt(p, o).value.1, n - 1).value.0
  {
    hide RecordAt;
  }

  /** Two sections walked alike and decoded to equal owners hold the same names at the same places. */
  lemma {:induction false} OwnersFromRecords(p: Bytes, q: Bytes, o: nat, n: nat)
    requires Section(p, o, n).Ok? && Section(q, o, n).Ok? && WalkFrom(p, o, n) == WalkFrom(q, o, n)
    requires SameOwners(Section(p, o, n).value.0, Section(q, o, n).value.0)
    ensures OwnersSame(p, q, o, n)
    decreases n
  {
    hide RecordAt, SpanAt, Section, WalkFrom, SameOwners, NameSame;
    if n > 0 {
      SectionCons(p, o, n);
      SectionCons(q, o, n);
      var (first, next) := RecordAt(p, o).value;
      var (first', next') := RecordAt(q, o).value;
      SameOwnersCons(first, Section(p, next, n - 1).value.0, first', Section(q, next', n - 1).value.0);
      FirstRecordSame(p, q, o, n);
      OwnersFromRecords(p, q, next, n - 1);
    }
  }

  lemma {:induction false} FirstRecordSame(p: Bytes, q: Bytes, o: nat, n: nat)
    requires n > 0 && RecordAt(p, o).Ok? && RecordAt(q, o).Ok? && WalkFrom(p, o, n) == WalkFrom(q, o, n)
    requires RecordAt(q, o).value.0.name == RecordAt(p, o).value.0.name
    ensures NameSame(p, q, o) && RecordAt(q, o).value.1 == RecordAt(p, o).value.1
    ensures WalkFrom(p, RecordAt(p, o).value.1, n - 1) == WalkFrom(q, RecordAt(p, o).value.1, n - 1)
  {
    hide Decode, FromU16, SpanAt;
    RecordSpan(p, o);
    RecordSpan(q, o);
    var s, t := SpanAt(p, o).value, SpanAt(q, o).value;
    var a, b := WalkFrom(p, s.end, n - 1), WalkFrom(q, t.end, n - 1);
    assert ([s] + a.spans)[0] == ([t] + b.spans)[0];
    assert ([s] + a.spans)[1..] == a.spans && ([t] + b.spans)[1..] == b.spans;
  }

  lemma {:induction false} QuestionsCons(p: Bytes, o: nat, n: nat)
    requires n > 0 && Questions(p, o, n).Ok?
    ensures QuestionAt(p, o).Ok? && Questions(p, QuestionAt(p, o).value.1, n - 1).Ok?
    ensures Questions(p, o, n).value.0
        == [QuestionAt(p, o).value.0] + Questions(p, QuestionAt(p, o).value.1, n - 1).value.0
    ensures Questions(p, o, n).value.1 == Questions(p, QuestionAt(p, o).value.1, n - 1).value.1
  {
    hide QuestionAt;
  }

  lemma {:induction false} FirstQuestionSame(p: Bytes, q: Bytes, o: nat)
    requires |p| == |q| && o <= |p| && QuestionAt(p, o).Ok? && QuestionAt(q, o).Ok?
    requires forall i :: o <= i < QuestionAt(p, o).value.1 ==> q[i] == p[i]
    requires QuestionAt(q, o).value.0 == QuestionAt(p, o).value.0
    ensures NameSame(p, q, o) && QuestionAt(q, o).value.1 == QuestionAt(p, o).value.1
  {
    hide Decode, FromU16;
    var next := DecodeName(p, o).value.next;
    DecodeSkip(p, o, 0, 1);
    DecodeSkip(q, o, 0, 1);
    assert p[o..next] == q[o..next];
    SkipLocal(p, o, q, o);
  }

  lemma {:induction false} NamesFromQuestions(p: Bytes, q: Bytes, o: nat, n: nat)
    requires |p| == |q| && o <= |p| && Questions(p, o, n).Ok? && Questions(q, o, n) == Questions(p, o, n)
    requires forall i :: o <= i < Questions(p, o, n).value.1 ==> q[i] == p[i]
    ensures QuestionNamesSame(p, q, o, n)
    decreases n
  {
    hide QuestionAt, Questions, NameSame;
    if n > 0 {
      QuestionsCons(p, o, n);
      QuestionsCons(q, o, n);
      var (first, end) := QuestionAt(p, o).value;
      var (first', end') := QuestionAt(q, o).value;
      var rest, rest' := Questions(p, end, n - 1).value.0, Questions(q, end', n - 1).value.0;
      assert ([first] + rest)[0] == ([first'] + rest')[0];
      assert ([first] + rest)[1..] == rest && ([first'] + rest')[1..] == rest';
      FirstQuestionSame(p, q, o);
      NamesFromQuestions(p, q, end, n - 1);
    }
  }

  lemma {:induction false} RefinedNamesSame(p: Bytes, ip: IpAddr)
    requires Unpack(p).Ok? && Unpack(RewriteBytes(p, ip)) == Ok(RewriteMsg(Unpack(p).value, ip))
    ensures NamesSame(p, RewriteBytes(p, ip))
  {
    hide Tail, WalkFrom, Section, Questions, SkipQuestions, HeaderFromBits, OwnersSame, QuestionNamesSame, AnswersStart;
    var q := RewriteBytes(p, ip);
    var (o1, o2, o3) := Bounds(p);
    AcceptedWalk(p);
    AcceptedWalk(q);
    RewrittenTail(p, ip);
    PrefixKept(p, q);
    WalkKept(p, q, o1, U16(p, 6), ip);
    assert forall i :: 0 <= i < o1 ==> q[i] == q[..o1][i] == p[..o1][i] == p[i];
    NamesFromQuestions(p, q, HEADER_SIZE, U16(p, 4));
    OwnersFromRecords(p, q, o1, U16(p, 6));
    WalkSuffix(p, q, o2, U16(p, 8));
    SectionWalk(p, o2, U16(p, 8));
    SectionWalk(q, o2, U16(p, 8));
    OwnersFromRecords(p, q, o2, U16(p, 8));
    SuffixSlices(p, q, o2, o3);
    WalkSuffix(p, q, o3, U16(p, 10));
    OwnersFromRecords(p, q, o3, U16(p, 10));
  }

  /**
    On a packet the decoder accepts, the byte-level rewrite succeeds, keeps the length, and the
    packet it leaves decodes to the rewritten message if and only if it holds the same names.
   */
  lemma {:induction false} RewriteRefinesIff(p: Bytes, ip: IpAddr)
    requires Unpack(p).Ok?
    ensures RewriteOutcome(p) == Ok(()) && |RewriteBytes(p, ip)| == |p|
    ensures Unpack(RewriteBytes(p, ip)) == Ok(RewriteMsg(Unpack(p).value, ip)) <==> NamesSame(p, RewriteBytes(p, ip))
  {
    hide Unpack, RewriteMsg, NamesSame, RewriteBytes, RewriteOutcome;
    AcceptedWalk(p);
    if NamesSame(p, RewriteBytes(p, ip)) {
      SameNamesRefine(p, ip);
    }
    if Unpack(RewriteBytes(p, ip)) == Ok(RewriteMsg(Unpack(p).value, ip)) {
      RefinedNamesSame(p, ip);
    }
  }

  /** It does whenever no name reads a changed byte. */
  lemma {:induction false} RewriteRefines(p: Bytes, ip: IpAddr)
    requires Unpack(p).Ok? && NamesAvoid(p, Changed(p, RewriteBytes(p, ip)))
    ensures RewriteOutcome(p) == Ok(())
    ensures Unpack(RewriteBytes(p, ip)) == Ok(RewriteMsg(Unpack(p).value, ip))
  {
    hide Unpack, RewriteMsg, NamesSame, NamesAvoid, RewriteBytes, RewriteOutcome, Changed;
    NamesAvoidSame(p, RewriteBytes(p, ip));
    RewriteRefinesIff(p, ip);
  }

  lemma {:induction false} ChangedIsChosen(p: Bytes, ip: IpAddr)
    requires Unpack(p).Ok?
    ensures Changed(p, RewriteBytes(p, ip)) <= ChosenData(p, ip)
  {
    hide RewriteBytes, InChosenData, Answers, AnswersStart, Unpack;
    AcceptedWalk(p);
    RewriteChangesOnlyChosenData(p, ip);
  }

  /** In terms of the packet alone: it does whenever no name reads the data of an answer to be rewritten. */
  lemma {:induction false} RewriteRefinesClear(p: Bytes, ip: IpAddr)
    requires Unpack(p).Ok? && NamesAvoid(p, ChosenData(p, ip))
    ensures RewriteOutcome(p) == Ok(())
    ensures Unpack(RewriteBytes(p, ip)) == Ok(RewriteMsg(Unpack(p).value, ip))
  {
    hide Unpack, RewriteMsg, NamesAvoid, RewriteBytes, RewriteOutcome, Changed, ChosenData, AnswersStart;
    ChangedIsChosen(p, ip);
    NamesAvoidFewer(p, ChosenData(p, ip), Changed(p, RewriteBytes(p, ip)));
    RewriteRefines(p, ip);
  }

  // ---------------------------------------------------------------- packets without pointers

  lemma {:induction false} PlainReads(p: Bytes, cur: nat, ptrs: nat, wlen: nat, i: nat)
    requires ptrs <= MAX_POINTERS && Decode(p, cur, ptrs, wlen).Ok? && PlainName(p, cur)
    requires DecodeReads(p, cur, ptrs, wlen, i)
    ensures cur <= i < Decode(p, cur, ptrs, wlen).value.next
    decreases |p| - cur
  {
    if p[cur] != 0 {
      var end := cur + 1 + p[cur] as int;
      if i >= end || i < cur {
        PlainReads(p, end, ptrs, wlen + 1 + p[cur] as int, i);
      }
    }
  }

  lemma {:induction false} PlainNameSame(p: Bytes, q: Bytes, o: nat)
    requires |p| == |q| && DecodeName(p, o).Ok? && PlainName(p, o)
    requires forall i :: o <= i < DecodeName(p, o).value.next ==> q[i] == p[i]
    ensures NameSame(p, q, o)
  {
    forall i: nat | i < |p| && DecodeReads(p, o, 0, 1, i)
      ensures q[i] == p[i]
    {
      PlainReads(p, o, 0, 1, i);
    }
    DecodeFrame(p, q, o, 0, 1);
  }

  /** The owner of the next record is kept, and what is behind the record is rewritten, or kept, in turn. */
  lemma {:induction false} OwnerBytesKept(p: Bytes, q: Bytes, o: nat, n: nat, ip: IpAddr)
    requires |p| == |q| && o <= |p| && n > 0 && RecordAt(p, o).Ok?
    requires q[o..] == Tail(p, o, n, ip) || q[o..] == p[o..]
    ensures forall i :: o <= i < DecodeName(p, o).value.next ==> q[i] == p[i]
    ensures var end := RecordAt(p, o).value.1;
        end <= |p|
        && (q[end..] == Tail(p, end, n - 1, ip) || q[end..] == p[end..])
  {
    hide Tail, SpanAt, NewData, FromU16;
    RecordSpan(p, o);
    var s := SpanAt(p, o).value;
    if q[o..] == p[o..] {
      SuffixSlices(p, q, o, s.body + 10);
      SuffixSlices(p, q, o, s.end);
    } else {
      TailHead(p, q, o, n, ip);
    }
    SpanKept(p, q, o);
  }

  lemma {:induction false} PlainOwnersSame(p: Bytes, q: Bytes, o: nat, n: nat, ip: IpAddr)
    requires |p| == |q| && o <= |p| && Section(p, o, n).Ok? && PlainRecords(p, o, n)
    requires q[o..] == Tail(p, o, n, ip) || q[o..] == p[o..]
    ensures OwnersSame(p, q, o, n)
    decreases n
  {
    hide Tail, NameSame, PlainName, RecordAt, Section;
    if n > 0 {
      SectionCons(p, o, n);
      OwnerBytesKept(p, q, o, n, ip);
      OwnerDecodes(p, o);
      PlainNameSame(p, q, o);
      PlainOwnersSame(p, q, RecordAt(p, o).value.1, n - 1, ip);
    }
  }

  lemma {:induction false} OwnerDecodes(p: Bytes, o: nat)
    requires RecordAt(p, o).Ok?
    ensures DecodeName(p, o).Ok?
  {
  }

  lemma {:induction false} PlainQuestionNamesSame(p: Bytes, q: Bytes, o: nat, n: nat)
    requires |p| == |q| && o <= |p| && Questions(p, o, n).Ok? && PlainQuestions(p, o, n)
    requires forall i :: o <= i < Questions(p, o, n).value.1 ==> q[i] == p[i]
    ensures QuestionNamesSame(p, q, o, n)
    decreases n
  {
    hide NameSame, PlainName, FromU16;
    if n > 0 {
      PlainNameSame(p, q, o);
      PlainQuestionNamesSame(p, q, QuestionAt(p, o).value.1, n - 1);
    }
  }

  /** A packet without compression pointers needs no further hypothesis. */
  lemma {:induction false} RewriteRefinesUncompressed(p: Bytes, ip: IpAddr)
    requires Unpack(p).Ok? && Uncompressed(p)
    ensures RewriteOutcome(p) == Ok(())
    ensures Unpack(RewriteBytes(p, ip)) == Ok(RewriteMsg(Unpack(p).value, ip))
  {
    hide Tail, WalkFrom, Section, Questions, SkipQuestions, HeaderFromBits, OwnersSame, QuestionNamesSame, PlainRecords,
      PlainQuestions;
    var q := RewriteBytes(p, ip);
    var (o1, o2, o3) := Bounds(p);
    AcceptedWalk(p);
    RewrittenTail(p, ip);
    WalkKept(p, q, o1, U16(p, 6), ip);
    assert forall i :: 0 <= i < o1 ==> q[i] == q[..o1][i] == p[..o1][i] == p[i];
    PlainQuestionNamesSame(p, q, HEADER_SIZE, U16(p, 4));
    PlainOwnersSame(p, q, o1, U16(p, 6), ip);
    PlainOwnersSame(p, q, o2, U16(p, 8), ip);
    SuffixSlices(p, q, o2, o3);
    PlainOwnersSame(p, q, o3, U16(p, 10), ip);
    RewriteRefinesIff(p, ip);
  }

  // ---------------------------------------------------------------- the addresses, whatever the names

  lemma {:induction false} AnswerIpsCons(rr: Record, rest: seq<Record>)
    ensures AnswerIps([rr] + rest) == AnswerIps([rr]) + AnswerIps(rest)
  {
    assert ([rr] + rest)[1..] == rest;
    assert [rr][1..] == [];
  }

  /** Two records with the same type and class, the data of one being those of the other rewritten. */
  lemma {:induction false} OneRewritten(rr: Record, rr': Record, ip: IpAddr)
    requires rr'.(name := rr.name) == RewriteRecord(rr, ip)
    ensures AnswerIps([rr']) == Substituted(AnswerIps([rr]), ip)
  {
    assert [rr][1..] == [] && [rr'][1..] == [];
  }

  lemma {:induction false} SubstitutedConcat(a: seq<IpAddr>, b: seq<IpAddr>, ip: IpAddr)
    ensures Substituted(a + b, ip) == Substituted(a, ip) + Substituted(b, ip)
  {
  }

  /** One answer read before and after: whatever its owner now decodes to, its data are the rewritten ones. */
  lemma {:induction false} DataRewritten(p: Bytes, q: Bytes, o: nat, n: nat, ip: IpAddr)
    requires |p| == |q| && o <= |p| && n > 0 && RecordAt(p, o).Ok? && RecordAt(q, o).Ok? && q[o..] == Tail(p, o, n, ip)
    ensures RecordAt(q, o).value.1 == RecordAt(p, o).value.1 <= |p|
    ensures q[RecordAt(p, o).value.1..] == Tail(p, RecordAt(p, o).value.1, n - 1, ip)
    ensures var rr, rr' := RecordAt(p, o).value.0, RecordAt(q, o).value.0;
            rr'.(name := rr.name) == RewriteRecord(rr, ip)
  {
    hide Decode, FromU16, Tail;
    RecordSpan(p, o);
    RecordSpan(q, o);
    TailHead(p, q, o, n, ip);
    SpanKept(p, q, o);
  }

  lemma {:induction false} SectionIpsRewritten(p: Bytes, q: Bytes, o: nat, n: nat, ip: IpAddr)
    requires |p| == |q| && o <= |p| && Section(p, o, n).Ok? && Section(q, o, n).Ok? && q[o..] == Tail(p, o, n, ip)
    ensures AnswerIps(Section(q, o, n).value.0) == Substituted(AnswerIps(Section(p, o, n).value.0), ip)
    decreases n
  {
    hide Tail, RecordAt, AnswerIps, Substituted, RewriteRecord, Section;
    if n > 0 {
      SectionCons(p, o, n);
      SectionCons(q, o, n);
      DataRewritten(p, q, o, n, ip);
      var (rr, next) := RecordAt(p, o).value;
      var rr' := RecordAt(q, o).value.0;
      var rest, rest' := Section(p, next, n - 1).value.0, Section(q, next, n - 1).value.0;
      SectionIpsRewritten(p, q, next, n - 1, ip);
      OneRewritten(rr, rr', ip);
      AnswerIpsCons(rr, rest);
      AnswerIpsCons(rr', rest');
      SubstitutedConcat(AnswerIps([rr]), AnswerIps(rest), ip);
    } else {
      NoIps(p, q, o, ip);
    }
  }

  lemma {:induction false} NoIps(p: Bytes, q: Bytes, o: nat, ip: IpAddr)
    ensures Section(p, o, 0) == Ok(([], o)) && Section(q, o, 0) == Ok(([], o))
    ensures AnswerIps([]) == [] && Substituted([], ip) == []
  {
  }

  /** If what the rewrite leaves decodes at all, its answer addresses are the substituted ones, compression or not. */
  lemma {:induction false} RewrittenIps(p: Bytes, ip: IpAddr)
    requires Unpack(p).Ok? && Unpack(RewriteBytes(p, ip)).Ok?
    ensures AnswerIps(Unpack(RewriteBytes(p, ip)).value.answers) == Substituted(AnswerIps(Unpack(p).value.answers), ip)
  {
    hide Tail, WalkFrom, Section, Questions, SkipQuestions, HeaderFromBits, AnswersStart, AnswerIps;
    var q := RewriteBytes(p, ip);
    var o1 := Bounds(p).0;
    AcceptedWalk(p);
    AcceptedWalk(q);
    RewrittenTail(p, ip);
    PrefixKept(p, q);
    SectionIpsRewritten(p, q, o1, U16(p, 6), ip);
  }
}
