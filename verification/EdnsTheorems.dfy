/** What the OPT and padding editors do to a packet whose walk ends at its last byte. */
module EdnsTheorems {
  import opened Wire
  import opened Names
  import opened Layout
  import opened Edns

  // ---------------------------------------------------------------- what is refused at once

  /** Length and question count are tested before anything else, and a refused packet is left alone. */
  lemma {:induction false} RefusedAtOnce(p: Bytes, size: uint16, minTtl: uint32, maxTtl: uint32, failureTtl: uint32)
    requires |p| <= 12 || |p| > 4096 || p[4] != 0 || p[5] != 1
    ensures var e := if |p| <= 12 then TooShort else if |p| > 4096 then TooLarge else NoQuestion;
            && SetEdns(p, size) == Edited(p, Err(e)) && AddPadding(p) == Edited(p, Err(e))
            && MinTtl(p, minTtl, maxTtl, failureTtl) == Err(e)
  {
  }

  // ---------------------------------------------------------------- the scan, on a laid-out packet

  lemma {:induction false} StartLaid(p: Bytes, l: Shape)
    requires Laid(p, l) && |p| <= MAX_PACKET
    ensures AdditionalStart(p) == Ok(l.mainEnd)
  {
  }

  lemma {:induction false} ScanOne(p: Bytes, s: Span, n: nat, found: Option<nat>)
    requires Stands(p, s) && n > 0
    ensures |p| > 0 && s.In(p)
    ensures ScanFrom(p, s.start, n, found)
         == if IsOpt(p, s) && found.Some? then Scan(found, Err(DuplicateOpt))
            else ScanFrom(p, s.end, n - 1, if IsOpt(p, s) then Some(s.body) else found)
  {
    hide SkipName;
  }

  lemma {:induction false} ScanNil(p: Bytes, o: nat, list: seq<Span>, end: nat, found: Option<nat>)
    requires Walks(p, o, list, end) && |list| == 0
    ensures |p| > 0 && ScanFrom(p, o, 0, found) == Scan(found, Ok(end))
  {
  }

  lemma {:induction false} ScanNone(p: Bytes, o: nat, list: seq<Span>, end: nat, found: Option<nat>)
    requires Walks(p, o, list, end) && NoOpt(p, list)
    ensures |p| > 0 && ScanFrom(p, o, |list|, found) == Scan(found, Ok(end))
    decreases |list|
  {
    hide Walks, Stands, ScanFrom, IsOpt;
    if |list| == 0 {
      ScanNil(p, o, list, end, found);
    } else {
      WalksFirst(p, o, list, end);
      ScanOne(p, list[0], |list|, found);
      assert forall i :: 0 <= i < |list| - 1 ==> list[1..][i] == list[i + 1];
      ScanNone(p, list[0].end, list[1..], end, found);
    }
  }

  lemma {:induction false} ScanOnly(p: Bytes, o: nat, list: seq<Span>, end: nat, k: nat)
    requires Walks(p, o, list, end) && OnlyOpt(p, list, k)
    ensures |p| > 0 && ScanFrom(p, o, |list|, None) == Scan(Some(list[k].body), Ok(end))
    decreases |list|
  {
    hide Walks, Stands, ScanFrom, IsOpt;
    WalksFirst(p, o, list, end);
    ScanOne(p, list[0], |list|, None);
    assert forall i :: 0 <= i < |list| - 1 ==> list[1..][i] == list[i + 1];
    if k == 0 {
      ScanNone(p, list[0].end, list[1..], end, Some(list[0].body));
    } else {
      ScanOnly(p, list[0].end, list[1..], end, k - 1);
    }
  }

  /** A second OPT is refused wherever the two stand. */
  lemma {:induction false} ScanTwo(p: Bytes, o: nat, list: seq<Span>, end: nat, found: Option<nat>, i: nat, j: nat)
    requires Walks(p, o, list, end) && j < |list| && IsOpt(p, list[j])
    requires found.Some? || (i < j && IsOpt(p, list[i]))
    ensures |p| > 0 && ScanFrom(p, o, |list|, found).out == Err(DuplicateOpt)
    decreases |list|
  {
    hide Walks, Stands, ScanFrom, IsOpt;
    WalksFirst(p, o, list, end);
    ScanOne(p, list[0], |list|, found);
    if !(IsOpt(p, list[0]) && found.Some?) {
      var found' := if IsOpt(p, list[0]) then Some(list[0].body) else found;
      ScanTwo(p, list[0].end, list[1..], end, found', if i > 0 then i - 1 else 0, j - 1);
    }
  }

  ghost predicate AtMostOneOpt(p: Bytes, list: seq<Span>) {
    forall i, j :: 0 <= i < j < |list| ==> !(IsOpt(p, list[i]) && IsOpt(p, list[j]))
  }

  lemma {:induction false} OptCases(p: Bytes, list: seq<Span>)
    ensures AtMostOneOpt(p, list) <==> NoOpt(p, list) || exists k: nat :: OnlyOpt(p, list, k)
  {
    hide IsOpt;
    if AtMostOneOpt(p, list) && !NoOpt(p, list) {
      var k: nat :| k < |list| && IsOpt(p, list[k]);
      assert OnlyOpt(p, list, k);
    }
  }

  // ---------------------------------------------------------------- records that keep their bytes

  lemma {:induction false} IsOptMoved(p: Bytes, s: Span, q: Bytes, o': nat)
    requires s.In(p) && At(q, o', p[s.start..s.end])
    ensures IsOpt(q, Shift(s, o' - s.start)) <==> IsOpt(p, s)
  {
    var part := p[s.start..s.end];
    var k := s.body - s.start;
    assert q[o' + k] == q[o'..o' + |part|][k] == p[s.body];
    assert q[o' + k + 1] == q[o'..o' + |part|][k + 1] == p[s.body + 1];
  }

  /** The other records are OPT records after an edit exactly when they were before. */
  lemma {:induction false} OnlyOptKept(p: Bytes, l: Shape, q: Bytes, k: nat, s': Span)
    requires Laid(p, l) && OnlyOpt(p, l.extra, k) && IsOpt(q, s')
    requires SameHead(p, q, l.extra[k].start) && SameRest(p, l.extra[k].end, q, s'.end)
    ensures OnlyOpt(q, l.extra[..k] + [s'] + ShiftAll(l.extra[k + 1..], s'.end - l.extra[k].end), k)
  {
    hide Laid, Walks, IsOpt, SameHead, SameRest, Stands, At, Shift;
    var s := l.extra[k];
    var d := s'.end - s.end;
    var extra := l.extra[..k] + [s'] + ShiftAll(l.extra[k + 1..], d);
    forall i | 0 <= i < |extra|
      ensures IsOpt(q, extra[i]) <==> i == k
    {
      if i < k {
        BeforeKept(p, l, q, k, i);
      } else if i > k {
        assert extra[i] == Shift(l.extra[i], d);
        AfterKept(p, l, q, k, s'.end, i);
      }
    }
  }

  lemma {:induction false} BeforeKept(p: Bytes, l: Shape, q: Bytes, k: nat, i: nat)
    requires Laid(p, l) && i < k < |l.extra| && SameHead(p, q, l.extra[k].start)
    ensures IsOpt(q, l.extra[i]) <==> IsOpt(p, l.extra[i])
    ensures l.extra[i].In(p) && At(q, l.extra[i].start, p[l.extra[i].start..l.extra[i].end])
  {
    hide Laid, Walks, IsOpt, SameHead, Stands, At;
    var s := l.extra[i];
    LaidFacts(p, l);
    ExtraIn(p, l, i);
    WalksAt(p, l.mainEnd, l.extra, |p|, k);
    WalksAt(p, l.mainEnd, l.extra[..k], l.extra[k].start, i);
    SliceKept(p, q, l.extra[k].start, s.start, s.end);
    IsOptMoved(p, s, q, s.start);
    assert Shift(s, 0) == s;
  }

  lemma {:induction false} AfterKept(p: Bytes, l: Shape, q: Bytes, k: nat, end: nat, i: nat)
    requires Laid(p, l) && k < i < |l.extra| && SameRest(p, l.extra[k].end, q, end)
    ensures IsOpt(q, Shift(l.extra[i], end - l.extra[k].end)) <==> IsOpt(p, l.extra[i])
    ensures l.extra[k].end <= l.extra[i].start && l.extra[i].In(p)
    ensures At(q, l.extra[i].start - l.extra[k].end + end, p[l.extra[i].start..l.extra[i].end])
  {
    hide Laid, Walks, IsOpt, SameRest, Stands, At, Shift;
    var s := l.extra[i];
    LaidFacts(p, l);
    ExtraIn(p, l, i);
    WalksAt(p, l.mainEnd, l.extra, |p|, k);
    assert l.extra[k + 1..][i - k - 1] == s;
    WalksAt(p, l.extra[k].end, l.extra[k + 1..], |p|, i - k - 1);
    RestSlice(p, l.extra[k].end, q, end, s.start, s.end);
    IsOptMoved(p, s, q, s.start - l.extra[k].end + end);
  }

  lemma {:induction false} RestSlice(p: Bytes, a: nat, q: Bytes, b: nat, from: nat, to: nat)
    requires SameRest(p, a, q, b) && a <= from <= to <= |p|
    ensures At(q, from - a + b, p[from..to])
  {
    SliceOfRest(q, b, from - a, to - a);
    SliceOfRest(p, a, from - a, to - a);
  }

  lemma {:induction false} SliceOfRest(s: Bytes, o: nat, i: nat, j: nat)
    requires i <= j && o + j <= |s|
    ensures s[o..][i..j] == s[o + i..o + j]
  {
  }

  // ---------------------------------------------------------------- set_edns_max_payload_size

  /** Writing the class of record `k` disturbs nothing else. */
  lemma {:induction false} PatchHead(p: Bytes, s: Span, size: uint16)
    requires s.In(p)
    ensures var q := Put16(p, s.body + 2, size);
            && |q| == |p| && SameHead(p, q, s.start) && SameRest(p, s.end, q, s.end)
            && U16(q, s.body) == U16(p, s.body) && U16(q, s.body + 8) == U16(p, s.body + 8)
                && U16(q, s.body + 2) == size
            && At(q, s.start, p[s.start..s.body])
  {
    var q := Put16(p, s.body + 2, size);
    assert q[s.start..s.body] == p[s.start..s.body];
  }

  lemma {:induction false} StandsPatched(p: Bytes, s: Span, q: Bytes)
    requires Stands(p, s) && |q| == |p| && At(q, s.start, p[s.start..s.body]) && s.In(p)
    requires U16(q, s.body + 8) == U16(p, s.body + 8)
    ensures Stands(q, s)
  {
    hide SkipName, At;
    StepMoved(p, s.start, q, s.start);
  }

  lemma {:induction false} SetEdnsUpdates(p: Bytes, l: Shape, k: nat, size: uint16)
    requires Laid(p, l) && |p| <= MAX_PACKET && OnlyOpt(p, l.extra, k)
    ensures l.extra[k].In(p)
    ensures var s := l.extra[k];
            var q := Put16(p, s.body + 2, size);
            && SetEdns(p, size) == Edited(q, Ok(()))
            && Laid(q, l) && OnlyOpt(q, l.extra, k) && U16(q, s.body + 2) == size
  {
    hide Laid, Walks, Stands, SameHead, SameRest, At, ScanFrom, AdditionalStart, Put16, OnlyOpt, ShiftAll;
    OnlyOptIndex(p, l.extra, k);
    ExtraIn(p, l, k);
    var s := l.extra[k];
    var q := Put16(p, s.body + 2, size);
    LaidFacts(p, l);
    StartLaid(p, l);
    ScanOnly(p, l.mainEnd, l.extra, |p|, k);
    PatchHead(p, s, size);
    StandsPatched(p, s, q);
    LayoutEdit(p, l, q, k, s);
    OnlyOptKept(p, l, q, k, s);
    ShiftNone(l.extra[k + 1..]);
    assert l.extra[..k] + [s] + l.extra[k + 1..] == l.extra;
  }

  lemma {:induction false} OnlyOptIndex(p: Bytes, list: seq<Span>, k: nat)
    requires OnlyOpt(p, list, k)
    ensures k < |list| && IsOpt(p, list[k]) && !NoOpt(p, list)
  {
  }

  /** The span of a record appended to a packet of `n` bytes. */
  function Appended(n: nat): Span {
    Span(n, n + 1, n + 11)
  }

  lemma {:induction false} AppendedRecord(q: Bytes, n: nat, size: uint16)
    requires At(q, n, OptRecord(size))
    ensures Stands(q, Appended(n)) && IsOpt(q, Appended(n)) && U16(q, n + 3) == size && n + 11 <= |q|
  {
    var r := OptRecord(size);
    assert r == [0, 0, 41, size / 256, size % 256, 0, 0, 0, 0, 0, 0];
    assert q[n..n + 11] == r;
    assert forall i :: 0 <= i < 11 ==> q[n + i] == q[n..n + 11][i] == r[i];
    assert q[n] == 0 && q[n + 1] == 0 && q[n + 2] == 41 && q[n + 9] == 0 && q[n + 10] == 0;
    assert SkipName(q, n) == Ok(n + 1);
  }

  /** The bytes behind the header, kept by writing a count and appending. */
  lemma {:induction false} AppendKeeps(p: Bytes, n: uint16, b: Bytes)
    requires |p| > HEADER_SIZE
    ensures var q := Put16(p, 10, n) + b;
            && |q| == |p| + |b| && At(q, |p|, b) && U16(q, 10) == n && U16(q, 4) == U16(p, 4)
            && U16(q, 6) == U16(p, 6) && U16(q, 8) == U16(p, 8)
            && (forall i, j :: HEADER_SIZE <= i <= j <= |p| ==> At(q, i, p[i..j]))
  {
    var q := Put16(p, 10, n) + b;
    forall i, j | HEADER_SIZE <= i <= j <= |p|
      ensures At(q, i, p[i..j])
    {
      assert q[i..j] == p[i..j];
    }
  }

  /** Adding one record at the end: the walk gains exactly that record. */
  lemma {:induction false} LayoutAppend(p: Bytes, l: Shape, q: Bytes, s: Span)
    requires Laid(p, l) && |q| > |p| && U16(q, 4) == U16(p, 4) && U16(q, 6) == U16(p, 6) && U16(q, 8) == U16(p, 8)
    requires U16(q, 10) == |l.extra| + 1
    requires forall i, j :: HEADER_SIZE <= i <= j <= |p| ==> At(q, i, p[i..j])
    requires Stands(q, s) && s.start == |p| && s.end == |q|
    ensures Laid(q, l.(extra := l.extra + [s]))
    ensures forall i :: 0 <= i < |l.extra| ==> (IsOpt(q, l.extra[i]) <==> IsOpt(p, l.extra[i]))
  {
    hide Laid, Walks, Stands, At, SkipName, IsOpt, ShiftAll, U16;
    LaidFacts(p, l);
    QuestionSkipped(p, q, l.questionEnd - 4);
    WalksMoved(p, l.questionEnd, l.main, l.mainEnd, q, l.questionEnd);
    WalksMoved(p, l.mainEnd, l.extra, |p|, q, l.mainEnd);
    ShiftNone(l.main);
    ShiftNone(l.extra);
    WalksNil(q, |q|);
    WalksCons(q, s, [], |q|);
    assert [s] + [] == [s];
    WalksJoin(q, l.mainEnd, l.extra, |p|, [s], |q|);
    LaidIntro(q, l.(extra := l.extra + [s]));
    forall i | 0 <= i < |l.extra|
      ensures IsOpt(q, l.extra[i]) <==> IsOpt(p, l.extra[i])
    {
      ExtraIn(p, l, i);
      IsOptMoved(p, l.extra[i], q, l.extra[i].start);
      assert Shift(l.extra[i], 0) == l.extra[i];
    }
  }

  /** The records a packet can hold leave room in the count: an additional record takes 11 bytes. */
  lemma {:induction false} AddSectionLaid(p: Bytes, l: Shape, size: uint16)
    requires Laid(p, l) && |p| <= MAX_PACKET && NoOpt(p, l.extra)
    ensures AddSection(p, size).out.Ok? <==> |p| <= MAX_PACKET - 11
    ensures |p| <= MAX_PACKET - 11 ==>
              var q := AddSection(p, size).bytes;
              var l' := l.(extra := l.extra + [Appended(|p|)]);
              && q == Put16(p, 10, |l.extra| + 1) + OptRecord(size)
              && Laid(q, l') && OnlyOpt(q, l'.extra, |l.extra|) && U16(q, |p| + 3) == size
    ensures |p| > MAX_PACKET - 11 ==> AddSection(p, size) == Edited(p, Err(NoRoomForRecord))
  {
    hide Laid, Walks, Stands, At, SkipName, IsOpt, Put16, OptRecord;
    LaidFacts(p, l);
    if |p| <= MAX_PACKET - 11 {
      var q := Put16(p, 10, |l.extra| + 1) + OptRecord(size);
      AppendKeeps(p, |l.extra| + 1, OptRecord(size));
      AppendedRecord(q, |p|, size);
      LayoutAppend(p, l, q, Appended(|p|));
    }
  }

  lemma {:induction false} SetEdnsAdds(p: Bytes, l: Shape, size: uint16)
    requires Laid(p, l) && |p| <= MAX_PACKET && NoOpt(p, l.extra)
    ensures SetEdns(p, size) == AddSection(p, size)
  {
    hide Laid, Walks, ScanFrom, AdditionalStart, AddSection, NoOpt;
    LaidFacts(p, l);
    StartLaid(p, l);
    ScanNone(p, l.mainEnd, l.extra, |p|, None);
  }

  /**
    On a packet with one question that walks exactly to its end, setting the payload size
    succeeds if and only if there is at most one OPT and, when there is none, room for 11 bytes.
   */
  lemma {:induction false} SetEdnsSucceedsIff(p: Bytes, l: Shape, size: uint16)
    requires Laid(p, l) && |p| <= MAX_PACKET
    ensures SetEdns(p, size).out.Ok? <==> AtMostOneOpt(p, l.extra) && (NoOpt(p, l.extra) ==> |p| <= MAX_PACKET - 11)
  {
    hide Laid, SetEdns, AddSection, OnlyOpt, IsOpt, Put16;
    OptCases(p, l.extra);
    if NoOpt(p, l.extra) {
      SetEdnsAdds(p, l, size);
      AddSectionLaid(p, l, size);
    } else if AtMostOneOpt(p, l.extra) {
      var k: nat :| OnlyOpt(p, l.extra, k);
      SetEdnsUpdates(p, l, k, size);
    } else {
      var i: nat, j: nat :| i < j < |l.extra| && IsOpt(p, l.extra[i]) && IsOpt(p, l.extra[j]);
      SetEdnsRefuses(p, l, size, i, j);
    }
  }

  lemma {:induction false} SetEdnsRefuses(p: Bytes, l: Shape, size: uint16, i: nat, j: nat)
    requires Laid(p, l) && |p| <= MAX_PACKET && i < j < |l.extra| && IsOpt(p, l.extra[i]) && IsOpt(p, l.extra[j])
    ensures SetEdns(p, size).out == Err(DuplicateOpt)
  {
    hide Laid, Walks, ScanFrom, AdditionalStart, IsOpt;
    LaidFacts(p, l);
    StartLaid(p, l);
    ScanTwo(p, l.mainEnd, l.extra, |p|, None, i, j);
  }

  /** After a success there is exactly one OPT, it carries the size, and doing it again changes nothing. */
  lemma {:induction false} SetEdnsNormalises(p: Bytes, l: Shape, size: uint16) returns (l': Shape, k: nat)
    requires Laid(p, l) && |p| <= MAX_PACKET && SetEdns(p, size).out.Ok?
    ensures var q := SetEdns(p, size).bytes;
            && Laid(q, l') && OnlyOpt(q, l'.extra, k) && k < |l'.extra| && l'.extra[k].In(q)
                && U16(q, l'.extra[k].body + 2) == size
            && (l' == l || l' == l.(extra := l.extra + [Appended(|p|)]))
            && SetEdns(q, size) == Edited(q, Ok(()))
  {
    hide Laid, SetEdns, AddSection, OnlyOpt, NoOpt, AtMostOneOpt, IsOpt, Put16;
    SetEdnsSucceedsIff(p, l, size);
    OptCases(p, l.extra);
    if NoOpt(p, l.extra) {
      SetEdnsAdds(p, l, size);
      AddSectionLaid(p, l, size);
      l', k := l.(extra := l.extra + [Appended(|p|)]), |l.extra|;
    } else {
      k :| OnlyOpt(p, l.extra, k);
      SetEdnsUpdates(p, l, k, size);
      l' := l;
    }
    var q := SetEdns(p, size).bytes;
    OnlyOptIndex(q, l'.extra, k);
    SetEdnsUpdates(q, l', k, size);
    WriteAgain(q, l'.extra[k].body + 2, size);
  }

  lemma {:induction false} WriteAgain(q: Bytes, o: nat, n: uint16)
    requires o + 2 <= |q| && U16(q, o) == n
    ensures Put16(q, o, n) == q
  {
  }

  lemma {:induction false} ScanCount(p: Bytes, o: nat, n: nat, found: Option<nat>)
    requires |p| > 0 && ScanFrom(p, o, n, found).out.Ok? && o <= |p|
    ensures o + 11 * n <= ScanFrom(p, o, n, found).out.value <= |p|
    decreases n
  {
    hide SkipName;
    if n > 0 {
      var body := SkipName(p, o).value;
      ScanCount(p, body + 10 + U16(p, body + 8), n - 1, if U16(p, body) == TYPE_OPT then Some(body) else found);
    }
  }

  /** The overflow check on the additional count never fires, on any input at all. */
  lemma {:induction false} CountNeverOverflows(p: Bytes, size: uint16)
    ensures SetEdns(p, size).out != Err(TooManyAdditional) && AddPadding(p).out != Err(TooManyAdditional)
  {
    hide SkipName, Traverse, ScanFrom, PaddedLen;
    if AdditionalStart(p).Ok? {
      var start := AdditionalStart(p).value;
      var scan := ScanFrom(p, start, U16(p, 10), None);
      if scan.out.Ok? {
        ScanCount(p, start, U16(p, 10), None);
      } else {
        ScanErrors(p, start, U16(p, 10), None);
      }
    } else {
      StartErrors(p);
    }
  }

  lemma {:induction false} ScanErrors(p: Bytes, o: nat, n: nat, found: Option<nat>)
    requires |p| > 0
    ensures ScanFrom(p, o, n, found).out != Err(TooManyAdditional)
    decreases n
  {
    if n > 0 && SkipName(p, o).Ok? {
      var body := SkipName(p, o).value;
      if |p| - body >= 10 {
        ScanErrors(p, body + 10 + U16(p, body + 8), n - 1, if U16(p, body) == TYPE_OPT then Some(body) else found);
      }
    } else if n > 0 {
      SkipNameErrors(p, o);
    }
  }

  lemma {:induction false} SkipNameErrors(p: Bytes, o: nat)
    requires |p| > 0
    ensures SkipName(p, o) != Err(TooManyAdditional)
  {
    if o < |p| - 1 {
      SkipNameFromErrors(p, o, 0);
    }
  }

  lemma {:induction false} SkipNameFromErrors(p: Bytes, o: nat, qlen: nat)
    requires o < |p|
    ensures SkipNameFrom(p, o, qlen) != Err(TooManyAdditional)
    decreases |p| - o
  {
    var len := p[o] as int;
    if 0 < len < 0x40 && o + len + 1 < |p| {
      SkipNameFromErrors(p, o + len + 1, qlen + len + 1);
    }
  }

  lemma {:induction false} TraverseErrors(p: Bytes, o: nat, n: nat)
    requires |p| > 0
    ensures Traverse(p, o, n) != Err(TooManyAdditional)
    decreases n
  {
    if n > 0 {
      SkipNameErrors(p, o);
      if StepAt(p, o).Ok? {
        TraverseErrors(p, StepAt(p, o).value.end, n - 1);
      }
    }
  }

  lemma {:induction false} StartErrors(p: Bytes)
    ensures AdditionalStart(p) != Err(TooManyAdditional)
  {
    hide SkipName, Traverse;
    if |p| > HEADER_SIZE {
      SkipNameErrors(p, HEADER_SIZE);
      if SkipName(p, HEADER_SIZE).Ok? {
        TraverseErrors(p, SkipName(p, HEADER_SIZE).value + 4, U16(p, 6) as int + U16(p, 8) as int);
      }
    }
  }
}
