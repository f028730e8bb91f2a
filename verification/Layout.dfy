/**
  The raw record walk of dns.rs (skip_name and traverse_rrs) and the layout it finds.
  Every packet editor is specified against this layout.
 */
module Layout {
  import opened Wire
  import opened Names

  const MAX_PACKET := 4096

  // ---------------------------------------------------------------- traverse_rrs

  function StepAt(p: Bytes, o: nat): (r: Result<Span, DnsError>)
    requires |p| > 0
    ensures r.Ok? ==> r.value.start == o && r.value.In(p)
  {
    var body :- SkipName(p, o);
    if |p| - body < 10 then Err(TooShort)
    else if |p| - (body + 10) < U16(p, body + 8) then Err(RecordOutOfBounds)
    else Ok(Span(o, body, body + 10 + U16(p, body + 8)))
  }

  datatype Spans = Spans(list: seq<Span>, end: nat)

  function Traverse(p: Bytes, o: nat, n: nat): (r: Result<Spans, DnsError>)
    requires |p| > 0
    ensures r.Ok? ==> |r.value.list| == n && o + 11 * n <= r.value.end
    ensures r.Ok? && o <= |p| ==> r.value.end <= |p|
    decreases |p|, n
  {
    if n == 0 then Ok(Spans([], o)) else
      var s :- StepAt(p, o);
      var rest :- Traverse(p, s.end, n - 1);
      Ok(Spans([s] + rest.list, rest.end))
  }

  lemma {:induction false} TraverseBounds(p: Bytes, o: nat, n: nat)
    requires |p| > 0 && Traverse(p, o, n).Ok?
    ensures forall s :: s in Traverse(p, o, n).value.list
              ==> s.In(p) && o <= s.start && s.end <= Traverse(p, o, n).value.end
    decreases n
  {
    if n > 0 {
      TraverseBounds(p, StepAt(p, o).value.end, n - 1);
    }
  }

  /** Without a callback the loop only moves the offset. */
  method TraverseRrs(p: Bytes, start: nat, count: nat) returns (r: Result<nat, DnsError>)
    requires |p| > 0
    ensures r == match Traverse(p, start, count) case Ok(t) => Ok(t.end) case Err(e) => Err(e)
  {
    hide SkipName, U16;
    var offset: nat := start;
    for i := 0 to count
      invariant match Traverse(p, start, count)
                case Ok(t) => Traverse(p, offset, count - i).Ok? && Traverse(p, offset, count - i).value.end == t.end
                case Err(e) => Traverse(p, offset, count - i) == Err(e)
    {
      var body := SkipNameLoop(p, offset);
      if body.Err? {
        return Err(body.error);
      }
      offset := body.value;
      if |p| - offset < 10 {
        return Err(TooShort);
      }
      var rdlen: nat := U16(p, offset + 8);
      offset := offset + 10;
      if |p| - offset < rdlen {
        return Err(RecordOutOfBounds);
      }
      offset := offset + rdlen;
    }
    return Ok(offset);
  }

  // ---------------------------------------------------------------- locality

  lemma {:induction false} SkipNameFromLocal(p: Bytes, o: nat, q: Bytes, o': nat, qlen: nat)
    requires o < |p| && SkipNameFrom(p, o, qlen).Ok?
    requires At(q, o', p[o..SkipNameFrom(p, o, qlen).value]) && o' + (SkipNameFrom(p, o, qlen).value - o) < |q|
    ensures SkipNameFrom(q, o', qlen) == Ok(o' + (SkipNameFrom(p, o, qlen).value - o))
    decreases |p| - o
  {
    hide At;
    var n := SkipNameFrom(p, o, qlen).value;
    var part := p[o..n];
    AtSlice(q, o', part);
    assert q[o'] == q[o'..o' + |part|][0] == part[0] == p[o];
    if 0 < p[o] < 0x40 {
      var step := 1 + p[o] as int;
      assert part == p[o..o + step] + p[o + step..n];
      AtParts(q, o', p[o..o + step], p[o + step..n]);
      SkipNameFromLocal(p, o + step, q, o' + step, qlen + step);
    }
  }

  /** Name and fixed part found at `o'` of another packet: the record there has the same shape. */
  lemma {:induction false} StepMoved(p: Bytes, o: nat, q: Bytes, o': nat)
    requires |p| > 0 && StepAt(p, o).Ok?
    requires At(q, o', p[o..StepAt(p, o).value.body])
    requires var body := o' + (StepAt(p, o).value.body - o);
             body + 10 <= |q| && body + 10 + U16(q, body + 8) <= |q|
    ensures var body := o' + (StepAt(p, o).value.body - o);
            StepAt(q, o') == Ok(Span(o', body, body + 10 + U16(q, body + 8)))
  {
    SkipNameFromLocal(p, o, q, o', 0);
  }

  function Displaced(n: nat, d: int): nat {
    if n + d >= 0 then n + d else 0
  }

  function Shift(s: Span, d: int): Span {
    Span(Displaced(s.start, d), Displaced(s.body, d), Displaced(s.end, d))
  }

  function ShiftAll(list: seq<Span>, d: int): (r: seq<Span>)
    ensures |r| == |list|
  {
    seq(|list|, i requires 0 <= i < |list| => Shift(list[i], d))
  }

  lemma {:induction false} ShiftCons(s: Span, list: seq<Span>, d: int)
    ensures ShiftAll([s] + list, d) == [Shift(s, d)] + ShiftAll(list, d)
  {
  }

  lemma {:induction false} StepLocal(p: Bytes, o: nat, q: Bytes, o': nat)
    requires |p| > 0 && StepAt(p, o).Ok? && At(q, o', p[o..StepAt(p, o).value.end])
    ensures |q| > 0 && StepAt(q, o') == Ok(Shift(StepAt(p, o).value, o' - o))
  {
    var s := StepAt(p, o).value;
    var part := p[o..s.end];
    assert part == p[o..s.body] + p[s.body..s.end];
    AtParts(q, o', p[o..s.body], p[s.body..s.end]);
    var body := o' + (s.body - o);
    assert q[body + 8] == q[o'..o' + |part|][s.body - o + 8] == p[s.body + 8];
    assert q[body + 9] == q[o'..o' + |part|][s.body - o + 9] == p[s.body + 9];
    StepMoved(p, o, q, o');
  }

  // ---------------------------------------------------------------- walks as facts

  /** The record `s` is found at its start. */
  ghost predicate Stands(p: Bytes, s: Span) {
    |p| > 0 && StepAt(p, s.start) == Ok(s)
  }

  /** The records `list` follow one another from `o` to `end`. */
  ghost predicate Walks(p: Bytes, o: nat, list: seq<Span>, end: nat) {
    |p| > 0 && Traverse(p, o, |list|) == Ok(Spans(list, end))
  }

  lemma {:induction false} WalksNil(p: Bytes, o: nat)
    requires |p| > 0
    ensures Walks(p, o, [], o)
  {
  }

  lemma {:induction false} WalksCons(p: Bytes, s: Span, rest: seq<Span>, end: nat)
    ensures Walks(p, s.start, [s] + rest, end) <==> Stands(p, s) && Walks(p, s.end, rest, end)
  {
    hide StepAt;
    assert ([s] + rest)[0] == s && ([s] + rest)[1..] == rest;
    if |p| > 0 && Traverse(p, s.start, |[s] + rest|).Ok? {
      var s' := StepAt(p, s.start).value;
      var rest' := Traverse(p, s'.end, |rest|).value.list;
      assert ([s'] + rest')[0] == s' && ([s'] + rest')[1..] == rest';
    }
  }

  lemma {:induction false} WalksFirst(p: Bytes, o: nat, list: seq<Span>, end: nat)
    requires Walks(p, o, list, end) && |list| > 0
    ensures list[0].start == o && Stands(p, list[0]) && Walks(p, o + (list[0].end - o), list[1..], end)
    ensures list[0].In(p) && list[0].end <= end
  {
    hide StepAt;
    assert StepAt(p, o).Ok?;
    var rest := Traverse(p, StepAt(p, o).value.end, |list| - 1);
    assert rest.Ok? ==> ([StepAt(p, o).value] + rest.value.list)[1..] == rest.value.list;
  }

  lemma {:induction false} SplitAt(p: Bytes, a: nat, b: nat, c: nat, q: Bytes, o: nat)
    requires a <= b <= c <= |p| && At(q, o, p[a..c])
    ensures At(q, o, p[a..b]) && At(q, o + (b - a), p[b..c])
  {
    assert p[a..c] == p[a..b] + p[b..c];
    AtParts(q, o, p[a..b], p[b..c]);
  }

  lemma {:induction false} StandsMoved(p: Bytes, s: Span, q: Bytes, o': nat)
    requires Stands(p, s) && s.In(p) && At(q, o', p[s.start..s.end])
    ensures Stands(q, Shift(s, o' - s.start)) && Shift(s, o' - s.start).start == o'
    ensures Shift(s, o' - s.start).end == o' + (s.end - s.start)
  {
    StepLocal(p, s.start, q, o');
  }

  /** A stretch of records copied elsewhere is walked there, moved as a whole. */
  lemma {:induction false} WalksMoved(p: Bytes, o: nat, list: seq<Span>, end: nat, q: Bytes, o': nat)
    requires Walks(p, o, list, end) && o <= end <= |p| && At(q, o', p[o..end]) && |q| > 0
    ensures Walks(q, o', ShiftAll(list, o' - o), end - o + o')
    decreases |list|
  {
    hide Walks, Stands, At, ShiftAll, Shift;
    if |list| > 0 {
      var s := list[0];
      var rest := list[1..];
      WalksFirst(p, o, list, end);
      SplitAt(p, o, s.end, end, q, o');
      StandsMoved(p, s, q, o');
      WalksMoved(p, s.end, rest, end, q, o' + (s.end - o));
      ShiftCons(s, rest, o' - o);
      WalksCons(q, Shift(s, o' - o), ShiftAll(rest, o' - o), end - o + o');
      assert list == [s] + rest;
    } else {
      WalksEmpty(p, o, list, end);
      ShiftNil(list, o' - o);
      WalksNil(q, o');
    }
  }

  lemma {:induction false} WalksEmpty(p: Bytes, o: nat, list: seq<Span>, end: nat)
    requires Walks(p, o, list, end) && |list| == 0
    ensures o == end
  {
  }

  lemma {:induction false} ShiftNil(list: seq<Span>, d: int)
    requires |list| == 0
    ensures ShiftAll(list, d) == []
  {
  }

  lemma {:induction false} ShiftNone(list: seq<Span>)
    ensures ShiftAll(list, 0) == list
  {
  }

  lemma {:induction false} WalksJoin(p: Bytes, o: nat, a: seq<Span>, mid: nat, b: seq<Span>, end: nat)
    requires Walks(p, o, a, mid) && Walks(p, mid, b, end)
    ensures Walks(p, o, a + b, end)
    decreases |a|
  {
    hide Walks, Stands;
    if |a| > 0 {
      WalksFirst(p, o, a, mid);
      WalksJoin(p, a[0].end, a[1..], mid, b, end);
      WalksCons(p, a[0], a[1..] + b, end);
      assert a + b == [a[0]] + (a[1..] + b);
    } else {
      WalksEmpty(p, o, a, mid);
      assert a + b == b;
    }
  }

  /** A walk passes each of its records at its own start. */
  lemma {:induction false} WalksAt(p: Bytes, o: nat, list: seq<Span>, end: nat, k: nat)
    requires Walks(p, o, list, end) && k < |list|
    ensures Walks(p, o, list[..k], list[k].start) && Stands(p, list[k]) && Walks(p, list[k].end, list[k + 1..], end)
    ensures o <= list[k].start && list[k].In(p) && list[k].end <= end
    decreases |list|
  {
    hide Walks, Stands;
    WalksFirst(p, o, list, end);
    if k > 0 {
      var rest := list[1..];
      WalksAt(p, list[0].end, rest, end, k - 1);
      WalksCons(p, list[0], rest[..k - 1], list[k].start);
      assert list[..k] == [list[0]] + rest[..k - 1];
      assert list[k + 1..] == rest[k..];
    } else {
      WalksNonempty(p, o, list, end);
      WalksNil(p, o);
    }
  }

  lemma {:induction false} WalksNonempty(p: Bytes, o: nat, list: seq<Span>, end: nat)
    requires Walks(p, o, list, end)
    ensures |p| > 0 && o + 11 * |list| <= end
  {
  }

  // ---------------------------------------------------------------- layout

  /** Where the question ends and where the records stand: answers with authorities, then additionals. */
  datatype Shape = Shape(questionEnd: nat, main: seq<Span>, mainEnd: nat, extra: seq<Span>)

  /** The layout of a packet with one question whose walk ends exactly at its last byte. */
  function LayoutOf(p: Bytes): Option<Shape> {
    if |p| <= HEADER_SIZE || U16(p, 4) != 1 then None else
      match SkipName(p, HEADER_SIZE)
      case Err(_) => None
      case Ok(o) =>
        if |p| - o < 4 then None else
          match Traverse(p, o + 4, U16(p, 6) as int + U16(p, 8) as int)
          case Err(_) => None
          case Ok(a) =>
            match Traverse(p, a.end, U16(p, 10))
            case Err(_) => None
            case Ok(b) => if b.end != |p| then None else Some(Shape(o + 4, a.list, a.end, b.list))
  }

  /** The same as a fact about a packet and a shape. */
  ghost predicate Laid(p: Bytes, l: Shape) {
    && |p| > HEADER_SIZE && U16(p, 4) == 1 && HEADER_SIZE + 4 < l.questionEnd <= |p|
    && SkipName(p, HEADER_SIZE) == Ok(l.questionEnd - 4)
    && |l.main| == U16(p, 6) as int + U16(p, 8) as int && |l.extra| == U16(p, 10)
    && Walks(p, l.questionEnd, l.main, l.mainEnd) && Walks(p, l.mainEnd, l.extra, |p|)
  }

  lemma {:induction false} LayoutIsLaid(p: Bytes, l: Shape)
    ensures LayoutOf(p) == Some(l) <==> Laid(p, l)
  {
    hide Traverse, SkipName;
  }

  predicate IsOpt(p: Bytes, s: Span) {
    s.body + 2 <= |p| && U16(p, s.body) == TYPE_OPT
  }

  ghost predicate NoOpt(p: Bytes, list: seq<Span>) {
    forall i :: 0 <= i < |list| ==> !IsOpt(p, list[i])
  }

  /** The record at index `k` is an OPT and no other is. */
  ghost predicate OnlyOpt(p: Bytes, list: seq<Span>, k: nat) {
    k < |list| && forall i :: 0 <= i < |list| ==> (IsOpt(p, list[i]) <==> i == k)
  }

  lemma {:induction false} LaidFacts(p: Bytes, l: Shape)
    requires Laid(p, l)
    ensures HEADER_SIZE + 4 < l.questionEnd <= l.mainEnd <= |p|
    ensures U16(p, 4) == 1 && SkipName(p, HEADER_SIZE) == Ok(l.questionEnd - 4)
    ensures |l.main| == U16(p, 6) as int + U16(p, 8) as int && |l.extra| == U16(p, 10)
    ensures l.mainEnd + 11 * |l.extra| <= |p|
    ensures Walks(p, l.questionEnd, l.main, l.mainEnd) && Walks(p, l.mainEnd, l.extra, |p|)
  {
    WalksNonempty(p, l.questionEnd, l.main, l.mainEnd);
    WalksNonempty(p, l.mainEnd, l.extra, |p|);
  }

  lemma {:induction false} LaidIntro(p: Bytes, l: Shape)
    requires |p| > HEADER_SIZE && U16(p, 4) == 1 && HEADER_SIZE + 4 < l.questionEnd <= |p|
    requires SkipName(p, HEADER_SIZE) == Ok(l.questionEnd - 4)
    requires |l.main| == U16(p, 6) as int + U16(p, 8) as int && |l.extra| == U16(p, 10)
    requires Walks(p, l.questionEnd, l.main, l.mainEnd) && Walks(p, l.mainEnd, l.extra, |p|)
    ensures Laid(p, l)
  {
  }

  lemma {:induction false} ExtraIn(p: Bytes, l: Shape, k: nat)
    requires Laid(p, l) && k < |l.extra|
    ensures l.extra[k].In(p) && HEADER_SIZE + 4 < l.mainEnd <= l.extra[k].start && Stands(p, l.extra[k])
  {
    hide Laid, Walks, Stands;
    LaidFacts(p, l);
    WalksAt(p, l.mainEnd, l.extra, |p|, k);
  }

  /** The first `m` bytes are the same. */
  ghost predicate SameHead(p: Bytes, q: Bytes, m: nat) {
    m <= |p| && m <= |q| && q[..m] == p[..m]
  }

  /** From `a` on the one packet reads like the other from `b` on. */
  ghost predicate SameRest(p: Bytes, a: nat, q: Bytes, b: nat) {
    a <= |p| && b <= |q| && q[b..] == p[a..]
  }

  lemma {:induction false} HeadLength(p: Bytes, q: Bytes, m: nat)
    requires SameHead(p, q, m)
    ensures m <= |p| && m <= |q|
  {
  }

  lemma {:induction false} SliceKept(p: Bytes, q: Bytes, m: nat, a: nat, b: nat)
    requires a <= b <= m && SameHead(p, q, m)
    ensures b <= |p| && At(q, a, p[a..b])
  {
    assert q[a..b] == q[..m][a..b] == p[..m][a..b] == p[a..b];
  }

  lemma {:induction false} RestMoved(p: Bytes, a: nat, q: Bytes, b: nat)
    requires SameRest(p, a, q, b)
    ensures a <= |p| && b <= |q| && At(q, b, p[a..|p|]) && |p| - a == |q| - b
  {
    assert p[a..|p|] == p[a..] && q[b..|q|] == q[b..];
  }

  lemma {:induction false} HeadBytes(p: Bytes, q: Bytes, m: nat, o: nat)
    requires SameHead(p, q, m) && o + 2 <= m
    ensures U16(q, o) == U16(p, o)
  {
    assert q[o] == q[..m][o] == p[..m][o] == p[o];
    assert q[o + 1] == q[..m][o + 1] == p[..m][o + 1] == p[o + 1];
  }

  lemma {:induction false} QuestionSkipped(p: Bytes, q: Bytes, end: nat)
    requires |p| > 0 && |q| > 0 && SkipName(p, HEADER_SIZE) == Ok(end) && end < |q|
        && At(q, HEADER_SIZE, p[HEADER_SIZE..end])
    ensures SkipName(q, HEADER_SIZE) == Ok(end)
  {
    SkipNameFromLocal(p, HEADER_SIZE, q, HEADER_SIZE, 0);
  }

  /** The parts before an additional record are walked the same in a packet that agrees up to it. */
  lemma {:induction false} EditPrefix(p: Bytes, l: Shape, q: Bytes, m: nat)
    requires Laid(p, l) && l.mainEnd <= m && SameHead(p, q, m)
    ensures |q| > HEADER_SIZE && U16(q, 4) == 1 && |l.main| == U16(q, 6) as int + U16(q, 8) as int
    ensures U16(q, 10) == U16(p, 10) && l.questionEnd <= |q| && SkipName(q, HEADER_SIZE) == Ok(l.questionEnd - 4)
    ensures Walks(q, l.questionEnd, l.main, l.mainEnd)
  {
    hide Laid, Walks, SkipName, At, SameHead, U16;
    LaidFacts(p, l);
    HeadLength(p, q, m);
    HeadBytes(p, q, m, 4);
    HeadBytes(p, q, m, 6);
    HeadBytes(p, q, m, 8);
    HeadBytes(p, q, m, 10);
    SliceKept(p, q, m, HEADER_SIZE, l.questionEnd - 4);
    QuestionSkipped(p, q, l.questionEnd - 4);
    SliceKept(p, q, m, l.questionEnd, l.mainEnd);
    WalksMoved(p, l.questionEnd, l.main, l.mainEnd, q, l.questionEnd);
    ShiftNone(l.main);
  }

  /**
    Editing one additional record: with everything before it and everything after it kept,
    the layout keeps its other records, those behind it moved by the change in length.
   */
  lemma {:induction false} LayoutEdit(p: Bytes, l: Shape, q: Bytes, k: nat, s': Span)
    requires Laid(p, l) && k < |l.extra|
    requires SameHead(p, q, l.extra[k].start) && SameRest(p, l.extra[k].end, q, s'.end)
    requires Stands(q, s') && s'.start == l.extra[k].start
    ensures Laid(q, l.(extra := l.extra[..k] + [s'] + ShiftAll(l.extra[k + 1..], s'.end - l.extra[k].end)))
  {
    hide *;
    var s := l.extra[k];
    var extra := l.extra[..k] + [s'] + ShiftAll(l.extra[k + 1..], s'.end - s.end);
    LaidFacts(p, l);
    ExtraIn(p, l, k);
    EditPrefix(p, l, q, s.start);
    EditedExtra(p, l, q, k, s');
    LaidIntro(q, l.(extra := extra));
  }

  lemma {:induction false} EditedBefore(p: Bytes, o: nat, before: seq<Span>, m: nat, q: Bytes)
    requires Walks(p, o, before, m) && o <= m && SameHead(p, q, m) && m > 0
    ensures Walks(q, o, before, m)
  {
    hide *;
    HeadLength(p, q, m);
    SliceKept(p, q, m, o, m);
    WalksMoved(p, o, before, m, q, o);
    ShiftNone(before);
  }

  lemma {:induction false} EditedAfter(p: Bytes, m: nat, after: seq<Span>, q: Bytes, m': nat)
    requires Walks(p, m, after, |p|) && SameRest(p, m, q, m') && |q| > 0
    ensures Walks(q, m', ShiftAll(after, m' - m), |q|)
  {
    hide *;
    RestMoved(p, m, q, m');
    WalksMoved(p, m, after, |p|, q, m');
  }

  lemma {:induction false} EditedExtra(p: Bytes, l: Shape, q: Bytes, k: nat, s': Span)
    requires Laid(p, l) && k < |l.extra|
    requires SameHead(p, q, l.extra[k].start) && SameRest(p, l.extra[k].end, q, s'.end)
    requires Stands(q, s') && s'.start == l.extra[k].start && |q| > 0
    ensures Walks(q, l.mainEnd, l.extra[..k] + [s'] + ShiftAll(l.extra[k + 1..], s'.end - l.extra[k].end), |q|)
  {
    hide *;
    var s := l.extra[k];
    var before := l.extra[..k];
    var after := ShiftAll(l.extra[k + 1..], s'.end - s.end);
    LaidFacts(p, l);
    WalksAt(p, l.mainEnd, l.extra, |p|, k);
    EditedBefore(p, l.mainEnd, before, s.start, q);
    EditedAfter(p, s.end, l.extra[k + 1..], q, s'.end);
    WalksCons(q, s', after, |q|);
    WalksJoin(q, l.mainEnd, before, s.start, [s'] + after, |q|);
    ConcatAssoc(before, [s'], after);
  }
}
