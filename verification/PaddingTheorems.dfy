/** What the padding editor does to a packet whose walk ends at its last byte (section 3 of RFC 7830). */
module PaddingTheorems {
  import opened Wire
  import opened Names
  import opened Layout
  import opened Edns
  import opened EdnsTheorems

  // ---------------------------------------------------------------- the bytes of a success

  /**
    The record `s` of `p`, an OPT, with one padding option appended at the packet's end: all
    before its length field kept, the length raised to match, all behind it kept.
   */
  ghost predicate OneOptionMore(p: Bytes, s: Span, q: Bytes)
    requires s.In(p) && |p| <= MAX_PACKET
  {
    PaddedLenBounds(|p|);
    var padding := PaddedLen(|p|) - |p|;
    && |q| == PaddedLen(|p|) + 4
    && q[..s.body + 8] == p[..s.body + 8]
    && U16(q, s.body + 8) == U16(p, s.body + 8) as int + 4 + padding
    && q[s.body + 10..] == p[s.body + 10..] + PaddingOption(padding)
  }

  lemma {:induction false} StandsLength(p: Bytes, s: Span)
    requires Stands(p, s)
    ensures s.In(p) && s.end == s.body + 10 + U16(p, s.body + 8)
  {
    hide SkipName;
  }

  lemma {:induction false} LastEnds(p: Bytes, l: Shape)
    requires Laid(p, l) && |l.extra| > 0
    ensures l.extra[|l.extra| - 1].end == |p|
  {
    hide Laid, Walks, Stands;
    var k := |l.extra| - 1;
    LaidFacts(p, l);
    WalksAt(p, l.mainEnd, l.extra, |p|, k);
    WalksEmpty(p, l.extra[k].end, l.extra[k + 1..], |p|);
  }

  /** A record with more data counted in, the bytes appended at the packet's end. */
  lemma {:induction false} GrownInside(p: Bytes, s: Span, more: Bytes)
    requires Stands(p, s) && s.In(p) && U16(p, s.body + 8) as int + |more| < 0x1_0000
    ensures var rdlen := U16(p, s.body + 8) as int + |more|;
            var q := Put16(p, s.body + 8, rdlen) + more;
            var s' := s.(end := s.end + |more|);
            && Stands(q, s') && U16(q, s.body + 8) == rdlen && (IsOpt(q, s') <==> IsOpt(p, s))
            && q[s.body + 10..] == p[s.body + 10..] + more && q[..s.body + 8] == p[..s.body + 8]
            && SameHead(p, q, s.start)
  {
    hide SkipName;
    var rdlen := U16(p, s.body + 8) as int + |more|;
    var q := Put16(p, s.body + 8, rdlen) + more;
    StandsLength(p, s);
    assert q[..s.body + 8] == p[..s.body + 8];
    assert U16(q, s.body + 8) == rdlen;
    assert U16(q, s.body) == U16(p, s.body);
    assert q[s.start..s.body] == p[s.start..s.body];
    assert q[s.body + 10..] == p[s.body + 10..] + more;
    assert q[..s.start] == p[..s.start];
    StepMoved(p, s.start, q, s.start);
  }

  /** The outcome and the bytes, for a record wherever it stands. */
  lemma {:induction false} PadExact(p: Bytes, s: Span)
    requires Stands(p, s) && s.In(p) && |p| <= MAX_PACKET
    ensures var r := PadAt(p, s.body);
            && (r.out.Ok? <==> |p| <= 4080) && (r.out.Err? ==> r.bytes == p)
            && (r.out.Ok? ==>
                  && OneOptionMore(p, s, r.bytes) && SameHead(p, r.bytes, s.start)
                  && Stands(r.bytes, s.(end := s.end + (|r.bytes| - |p|)))
                  && (IsOpt(r.bytes, s.(end := s.end + (|r.bytes| - |p|))) <==> IsOpt(p, s)))
  {
    hide Stands, IsOpt, SameHead, PaddedLen, PaddingOption, Put16, U16;
    PaddedLenBounds(|p|);
    StandsLength(p, s);
    if |p| <= 4080 {
      GrownInside(p, s, PaddingOption(PaddedLen(|p|) - |p|));
    }
  }

  // ---------------------------------------------------------------- the layout of a success

  /** The last record extended to the packet's new end. */
  function Extended(l: Shape, end: nat): Shape
    requires |l.extra| > 0
  {
    var k := |l.extra| - 1;
    l.(extra := l.extra[..k] + [l.extra[k].(end := end)])
  }

  /**
    Padding a packet whose last record is the OPT: it succeeds exactly up to 4080 bytes, the
    result is one boundary plus the 4 octets of the option header long, and the walk changes
    only by the OPT's data growing by one padding option.
   */
  lemma {:induction false} PadLast(p: Bytes, l: Shape)
    requires Laid(p, l) && |p| <= MAX_PACKET && |l.extra| > 0 && IsOpt(p, l.extra[|l.extra| - 1])
    ensures var s := l.extra[|l.extra| - 1];
            var r := PadAt(p, s.body);
            && s.In(p) && s.end == |p|
            && (r.out.Ok? <==> |p| <= 4080) && (r.out.Err? ==> r.bytes == p)
            && (r.out.Ok? ==>
                  && OneOptionMore(p, s, r.bytes)
                  && Laid(r.bytes, Extended(l, |r.bytes|))
                  && IsOpt(r.bytes, s.(end := |r.bytes|)))
  {
    hide Laid, Walks, Stands, IsOpt, SameHead, SameRest, PadAt, OneOptionMore, ShiftAll;
    var k := |l.extra| - 1;
    var s := l.extra[k];
    LastEnds(p, l);
    ExtraIn(p, l, k);
    PadExact(p, s);
    var q := PadAt(p, s.body).bytes;
    if PadAt(p, s.body).out.Ok? {
      var s' := s.(end := |q|);
      NothingBehind(p, q);
      LayoutEdit(p, l, q, k, s');
      ShiftNil(l.extra[k + 1..], s'.end - s.end);
      assert l.extra[..k] + [s'] + [] == l.extra[..k] + [s'];
    }
  }

  lemma {:induction false} NothingBehind(p: Bytes, q: Bytes)
    ensures SameRest(p, |p|, q, |q|)
  {
  }

  lemma {:induction false} PaddingFindsOpt(p: Bytes, l: Shape, k: nat)
    requires Laid(p, l) && |p| <= MAX_PACKET && OnlyOpt(p, l.extra, k)
    ensures AddPadding(p) == PadAt(p, l.extra[k].body)
  {
    hide Laid, Walks, ScanFrom, AdditionalStart, PadAt;
    LaidFacts(p, l);
    StartLaid(p, l);
    ScanOnly(p, l.mainEnd, l.extra, |p|, k);
  }

  lemma {:induction false} PaddingAddsOpt(p: Bytes, l: Shape)
    requires Laid(p, l) && |p| <= MAX_PACKET && NoOpt(p, l.extra)
    ensures AddPadding(p) == if |p| <= MAX_PACKET - 11 then PadAt(AddSection(p, MAX_PACKET).bytes, |p| + 1)
                             else Edited(p, Err(NoRoomForRecord))
  {
    hide Laid, Walks, ScanFrom, AdditionalStart, PadAt, OnlyOpt, NoOpt, OptRecord, Put16;
    LaidFacts(p, l);
    StartLaid(p, l);
    ScanNone(p, l.mainEnd, l.extra, |p|, None);
    AddSectionLaid(p, l, MAX_PACKET);
  }

  // ---------------------------------------------------------------- the whole editor

  /** With one OPT, wherever it stands: padding succeeds iff the packet has at most 4080 bytes. */
  lemma {:induction false} PaddingExact(p: Bytes, l: Shape, k: nat)
    requires Laid(p, l) && |p| <= MAX_PACKET && OnlyOpt(p, l.extra, k)
    ensures l.extra[k].In(p)
    ensures var r := AddPadding(p);
            && (r.out.Ok? <==> |p| <= 4080) && (r.out.Err? ==> r.bytes == p)
            && (r.out.Ok? ==> OneOptionMore(p, l.extra[k], r.bytes))
  {
    hide Laid, Stands, AddPadding, PadAt, OneOptionMore, IsOpt;
    ExtraIn(p, l, k);
    PaddingFindsOpt(p, l, k);
    PadExact(p, l.extra[k]);
  }

  /** Over 4080 bytes it is refused as too large. */
  lemma {:induction false} PaddingTooLarge(p: Bytes, l: Shape, k: nat)
    requires Laid(p, l) && 4080 < |p| <= 4096 && OnlyOpt(p, l.extra, k)
    ensures AddPadding(p) == Edited(p, Err(TooLarge))
  {
    hide Laid, Stands, AddPadding, IsOpt, PaddedLen, U16;
    ExtraIn(p, l, k);
    PaddingFindsOpt(p, l, k);
    StandsLength(p, l.extra[k]);
    PaddedLenBounds(|p|);
  }

  /** With the OPT last the packet still walks to its end, that record alone longer. */
  lemma {:induction false} PaddingExactLast(p: Bytes, l: Shape)
    requires Laid(p, l) && |p| <= MAX_PACKET && |l.extra| > 0 && OnlyOpt(p, l.extra, |l.extra| - 1)
    ensures l.extra[|l.extra| - 1].In(p)
    ensures var r := AddPadding(p);
            && (r.out.Ok? <==> |p| <= 4080) && (r.out.Err? ==> r.bytes == p)
            && (r.out.Ok? ==>
                OneOptionMore(p, l.extra[|l.extra| - 1], r.bytes)
                && Laid(r.bytes, Extended(l, |r.bytes|)))
  {
    hide Laid, AddPadding, PadAt, OneOptionMore, IsOpt;
    PaddingFindsOpt(p, l, |l.extra| - 1);
    PadLast(p, l);
  }

  /**
    With no OPT: one is added and then padded.  Padding succeeds iff the packet and the 11
    added bytes make at most 4080; when only the padding fails the added record stays.
   */
  lemma {:induction false} PaddingExactAbsent(p: Bytes, l: Shape)
    requires Laid(p, l) && |p| <= MAX_PACKET && NoOpt(p, l.extra)
    ensures var r := AddPadding(p);
            var l1 := l.(extra := l.extra + [Appended(|p|)]);
            && (r.out.Ok? <==> |p| + 11 <= 4080)
            && (|p| > MAX_PACKET - 11 ==> r.bytes == p)
            && (|p| <= MAX_PACKET - 11 ==>
                  var p1 := Put16(p, 10, |l.extra| + 1) + OptRecord(MAX_PACKET);
                  && |p1| == |p| + 11 && Appended(|p|).In(p1) && Laid(p1, l1)
                  && (r.out.Err? ==> r.bytes == p1)
                  && (r.out.Ok? ==>
                      OneOptionMore(p1, Appended(|p|), r.bytes)
                      && Laid(r.bytes, Extended(l1, |r.bytes|))))
  {
    hide Laid, AddPadding, PadAt, OneOptionMore, AddSection, NoOpt, IsOpt, OptRecord, Put16;
    LaidFacts(p, l);
    PaddingAddsOpt(p, l);
    AddSectionLaid(p, l, MAX_PACKET);
    if |p| <= MAX_PACKET - 11 {
      PadLast(AddSection(p, MAX_PACKET).bytes, l.(extra := l.extra + [Appended(|p|)]));
    }
  }

  // ---------------------------------------------------------------- when the structure survives

  lemma {:induction false} NextStarts(p: Bytes, l: Shape, k: nat)
    requires Laid(p, l) && k + 1 < |l.extra|
    ensures l.extra[k + 1].start == l.extra[k].end
  {
    hide Laid, Walks, Stands;
    LaidFacts(p, l);
    WalksAt(p, l.mainEnd, l.extra, |p|, k);
    WalksFirst(p, l.extra[k].end, l.extra[k + 1..], |p|);
  }

  /**
    Padding appends at the packet's end while it lengthens the OPT.  When the OPT is not the last
    record, every success makes it reach over the start of the record behind it.
   */
  lemma {:induction false} PaddingSwallowsNext(p: Bytes, l: Shape, k: nat)
    requires Laid(p, l) && |p| <= 4080 && OnlyOpt(p, l.extra, k) && k + 1 < |l.extra|
    ensures AddPadding(p).out.Ok?
    ensures exists s' ::
        Stands(AddPadding(p).bytes, s') && s'.start == l.extra[k].start
        && s'.end > l.extra[k + 1].start
  {
    hide Laid, Stands, AddPadding, PadAt, OneOptionMore, IsOpt;
    var s := l.extra[k];
    ExtraIn(p, l, k);
    PaddingFindsOpt(p, l, k);
    NextStarts(p, l, k);
    PadExact(p, s);
    LongerBy4(p, s, AddPadding(p).bytes);
    assert Stands(AddPadding(p).bytes, s.(end := s.end + (|AddPadding(p).bytes| - |p|)));
  }

  lemma {:induction false} LongerBy4(p: Bytes, s: Span, q: Bytes)
    requires s.In(p) && |p| <= MAX_PACKET && OneOptionMore(p, s, q)
    ensures |q| >= |p| + 4
  {
    hide PaddedLen;
    PaddedLenBounds(|p|);
  }

  /** The packet has a layout in which every record but the additional record `k` is where it was. */
  predicate OthersInPlace(q: Bytes, l: Shape, k: nat) {
    match LayoutOf(q)
    case None => false
    case Some(l') =>
      && l'.questionEnd == l.questionEnd && l'.main == l.main && l'.mainEnd == l.mainEnd && |l'.extra| == |l.extra|
      && forall j :: 0 <= j < |l.extra| && j != k ==> l'.extra[j] == l.extra[j]
  }

  /** Padding leaves every other record in place if and only if the OPT is the last record. */
  lemma {:induction false} PaddingKeepsIffLast(p: Bytes, l: Shape, k: nat)
    requires Laid(p, l) && |p| <= 4080 && OnlyOpt(p, l.extra, k)
    ensures OthersInPlace(AddPadding(p).bytes, l, k) <==> k == |l.extra| - 1
  {
    hide Laid, Stands, AddPadding, OneOptionMore, IsOpt, LayoutOf;
    var q := AddPadding(p).bytes;
    if k == |l.extra| - 1 {
      PaddingExactLast(p, l);
      LayoutIsLaid(q, Extended(l, |q|));
    } else {
      PaddingSwallowsNext(p, l, k);
      if OthersInPlace(q, l, k) {
        var l' := LayoutOf(q).value;
        LayoutIsLaid(q, l');
        NextStarts(q, l', k);
        OptStarts(p, l, q, l', k);
        ExtraIn(q, l', k);
        var s' :| Stands(q, s') && s'.start == l.extra[k].start && s'.end > l.extra[k + 1].start;
        StandsOnce(q, s', l'.extra[k]);
      }
    }
  }

  /** Two layouts that agree before record `k` start it at the same place. */
  lemma {:induction false} OptStarts(p: Bytes, l: Shape, q: Bytes, l': Shape, k: nat)
    requires Laid(p, l) && Laid(q, l') && k < |l.extra| == |l'.extra| && l'.mainEnd == l.mainEnd
    requires forall j :: 0 <= j < k ==> l'.extra[j] == l.extra[j]
    ensures l'.extra[k].start == l.extra[k].start
  {
    hide Laid, Walks, Stands;
    if k == 0 {
      LaidFacts(p, l);
      LaidFacts(q, l');
      WalksFirst(p, l.mainEnd, l.extra, |p|);
      WalksFirst(q, l'.mainEnd, l'.extra, |q|);
    } else {
      NextStarts(p, l, k - 1);
      NextStarts(q, l', k - 1);
    }
  }

  lemma {:induction false} StandsOnce(q: Bytes, s: Span, t: Span)
    requires Stands(q, s) && Stands(q, t) && s.start == t.start
    ensures s == t
  {
    hide StepAt;
  }

  // ---------------------------------------------------------------- a reply whose OPT is not last

  /** A root question, then the OPT at 17 and an empty TXT record at 28. */
  const OPT_FIRST: Bytes := [
    0, 1, 0x80, 0, 0, 1, 0, 0, 0, 0, 0, 2, 0, 0, 1, 0, 1,
    0, 0, 41, 16, 0, 0, 0, 0, 0, 0, 0,
    0, 0, 16, 0, 1, 0, 0, 0, 0, 0, 0]

  const OPT_FIRST_SHAPE: Shape := Shape(17, [], 17, [Span(17, 18, 28), Span(28, 29, 39)])

  lemma {:induction false} OptFirstHeader()
    ensures var p := OPT_FIRST;
            |p| == 39 && U16(p, 4) == 1 && U16(p, 6) == 0 && U16(p, 8) == 0 && U16(p, 10) == 2 && p[12] == 0
  {
  }

  lemma {:induction false} OptFirstRecords()
    ensures var p := OPT_FIRST;
            && |p| == 39 && p[17] == 0 && U16(p, 18) == TYPE_OPT && U16(p, 26) == 0
            && p[28] == 0 && U16(p, 29) == 16 && U16(p, 37) == 0
  {
  }

  /** It is laid out, its only OPT is the first of two additional records, and it is short enough to be padded. */
  lemma {:induction false} OptFirstLaid()
    ensures Laid(OPT_FIRST, OPT_FIRST_SHAPE) && OnlyOpt(OPT_FIRST, OPT_FIRST_SHAPE.extra, 0) && |OPT_FIRST| == 39
    ensures AddPadding(OPT_FIRST).out.Ok? && !OthersInPlace(AddPadding(OPT_FIRST).bytes, OPT_FIRST_SHAPE, 0)
  {
    hide OPT_FIRST, U16, OthersInPlace, AddPadding;
    var p, l := OPT_FIRST, OPT_FIRST_SHAPE;
    OptFirstHeader();
    OptFirstRecords();
    assert SkipName(p, 12) == Ok(13) && SkipName(p, 17) == Ok(18) && SkipName(p, 28) == Ok(29);
    assert Stands(p, Span(17, 18, 28)) && Stands(p, Span(28, 29, 39));
    WalksNil(p, 17);
    WalksNil(p, 39);
    WalksCons(p, Span(28, 29, 39), [], 39);
    WalksCons(p, Span(17, 18, 28), [Span(28, 29, 39)], 39);
    assert [Span(28, 29, 39)] + [] == [Span(28, 29, 39)];
    assert [Span(17, 18, 28)] + [Span(28, 29, 39)] == l.extra;
    LaidIntro(p, l);
    assert IsOpt(p, l.extra[0]) && !IsOpt(p, l.extra[1]);
    assert OnlyOpt(p, l.extra, 0);
    PaddingKeepsIffLast(p, l, 0);
    PaddingSwallowsNext(p, l, 0);
  }
}
