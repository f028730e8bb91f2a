/** Where exactly the name walkers differ, and which names the JSON walker may meet. */
module NameLimits {
  import opened Wire
  import opened Names
  import opened NameAgreement
  import opened RrTypes
  import opened Messages
  import opened CodecRoundTrip
  import opened RewriteRefinement
  import opened Edns
  import opened MinTtlTheorem

  // ---------------------------------------------------------------- the limits of each walker

  /** Pointers followed in the first `steps` moves. */
  function Pointers(p: Bytes, o: nat, steps: nat): nat
    decreases steps
  {
    if steps == 0 || Move(p, o).None? then 0
    else (if p[o] >= 0xC0 then 1 else 0) + Pointers(p, Move(p, o).value, steps - 1)
  }

  lemma {:induction false} PointersStopped(p: Bytes, o: nat, n: nat, steps: nat)
    requires StopsIn(p, o, n) && n <= steps
    ensures Pointers(p, o, steps) == Pointers(p, o, n)
    decreases n
  {
    if Move(p, o).Some? {
      PointersStopped(p, Move(p, o).value, n - 1, steps - 1);
    }
  }

  lemma {:induction false} LabelsFitCons(l: Bytes, rest: Labels)
    ensures LabelsFit([l] + rest) <==> |l| < 0x40 && LabelsFit(rest)
    ensures NameOctets([l] + rest) == 1 + |l| + NameOctets(rest)
  {
    assert ([l] + rest)[1..] == rest;
    assert forall x :: x in rest ==> x in [l] + rest;
    assert l in [l] + rest;
  }

  /** The name the unbounded walk reads respects the limits of a decoder that has come this far. */
  predicate WithinLimits(p: Bytes, cur: nat, n: nat, ptrs: nat, wlen: nat) {
    var read := JsonFrom(p, cur, n);
    && read.Parsed? && LabelsFit(read.labels)
    && ptrs + Pointers(p, cur, n) <= MAX_POINTERS && wlen + NameOctets(read.labels) - 1 <= MAX_NAME_OCTETS
  }

  lemma {:induction false} DecodeLimits(p: Bytes, cur: nat, n: nat, ptrs: nat, wlen: nat)
    requires StopsIn(p, cur, n) && ptrs <= MAX_POINTERS && 1 <= wlen <= MAX_NAME_OCTETS
    ensures Decode(p, cur, ptrs, wlen).Ok? <==> WithinLimits(p, cur, n, ptrs, wlen)
    ensures var read := JsonFrom(p, cur, n);
            read.Parsed? && LabelsFit(read.labels) && Decode(p, cur, ptrs, wlen).Err? ==>
              Decode(p, cur, ptrs, wlen).error in {CompressionLoop, InvalidName}
    decreases n
  {
    hide NameOctets, LabelsFit;
    if cur >= |p| {
      return;
    }
    if p[cur] >= 0xC0 {
      if Move(p, cur).Some? {
        PointerLimits(p, cur, n, ptrs, wlen);
      }
    } else if p[cur] == 0 {
      RootLimits();
    } else if Move(p, cur).Some? {
      LabelLimits(p, cur, n, ptrs, wlen);
    }
  }

  lemma {:induction false} RootLimits()
    ensures LabelsFit([]) && NameOctets([]) == 1
  {
  }

  lemma {:induction false} PointerLimits(p: Bytes, cur: nat, n: nat, ptrs: nat, wlen: nat)
    requires StopsIn(p, cur, n) && ptrs <= MAX_POINTERS && 1 <= wlen <= MAX_NAME_OCTETS
    requires cur + 1 < |p| && p[cur] >= 0xC0
    ensures Decode(p, cur, ptrs, wlen).Ok? <==> WithinLimits(p, cur, n, ptrs, wlen)
    ensures var read := JsonFrom(p, cur, n);
            read.Parsed? && LabelsFit(read.labels) && Decode(p, cur, ptrs, wlen).Err? ==>
              Decode(p, cur, ptrs, wlen).error in {CompressionLoop, InvalidName}
    decreases n, 0
  {
    hide NameOctets, LabelsFit;
    if ptrs < MAX_POINTERS {
      DecodeLimits(p, PointerTarget(p, cur), n - 1, ptrs + 1, wlen);
    }
  }

  lemma {:induction false} LabelLimits(p: Bytes, cur: nat, n: nat, ptrs: nat, wlen: nat)
    requires StopsIn(p, cur, n) && ptrs <= MAX_POINTERS && 1 <= wlen <= MAX_NAME_OCTETS
    requires cur < |p| && 0 < p[cur] < 0xC0 && cur + 1 + p[cur] as int <= |p|
    ensures Decode(p, cur, ptrs, wlen).Ok? <==> WithinLimits(p, cur, n, ptrs, wlen)
    ensures var read := JsonFrom(p, cur, n);
            read.Parsed? && LabelsFit(read.labels) && Decode(p, cur, ptrs, wlen).Err? ==>
              Decode(p, cur, ptrs, wlen).error in {CompressionLoop, InvalidName}
    decreases n, 0
  {
    hide NameOctets, LabelsFit;
    var end := cur + 1 + p[cur] as int;
    var rest := JsonFrom(p, end, n - 1);
    if rest.Parsed? {
      LabelsFitCons(p[cur + 1..end], rest.labels);
      OctetsPositive(rest.labels);
    }
    if p[cur] < 0x40 && wlen + 1 + p[cur] as int <= MAX_NAME_OCTETS {
      DecodeLimits(p, end, n - 1, ptrs, wlen + 1 + p[cur] as int);
    }
  }

  lemma {:induction false} OctetsPositive(labels: Labels)
    ensures NameOctets(labels) >= 1
  {
  }

  lemma {:induction false} LowerLimits(p: Bytes, cur: nat, n: nat, jumps: nat)
    requires StopsIn(p, cur, n) && jumps + n <= |p| + 1
    ensures var read := JsonFrom(p, cur, n);
            LowerFrom(p, cur, jumps).Some? <==> read.Parsed? && LabelsFit(read.labels)
    decreases n
  {
    hide LabelsFit;
    if cur < |p| && p[cur] == 0 {
      RootLimits();
    } else if Move(p, cur).Some? {
      if p[cur] >= 0xC0 {
        LowerLimits(p, PointerTarget(p, cur), n - 1, jumps + 1);
      } else {
        var end := cur + 1 + p[cur] as int;
        LowerLimits(p, end, n - 1, jumps);
        var rest := JsonFrom(p, end, n - 1);
        if rest.Parsed? {
          LabelsFitCons(p[cur + 1..end], rest.labels);
        }
      }
    }
  }

  lemma {:induction false} LowerStops(p: Bytes, cur: nat, jumps: nat) returns (n: nat)
    requires jumps <= |p| && LowerFrom(p, cur, jumps).Some?
    ensures StopsIn(p, cur, n)
    decreases |p| - jumps, |p| - cur
  {
    if p[cur] >= 0xC0 {
      n := LowerStops(p, PointerTarget(p, cur), jumps + 1);
      n := n + 1;
    } else if p[cur] == 0 {
      n := 1;
    } else {
      n := LowerStops(p, cur + 1 + p[cur] as int, jumps);
      n := n + 1;
    }
  }

  /**
    What each walker accepts, in terms of the one without limits: the bootstrap parser whatever
    has labels under 64 octets, the decoder what also has at most 128 pointers and 255 octets.
    Within the labels' limit the decoder refuses only for those two.
   */
  lemma {:induction false} AcceptedIff(p: Bytes, o: nat)
    ensures var read := JsonFrom(p, o, |p| + 1);
            && (LowerName(p, o).Some? <==> read.Parsed? && LabelsFit(read.labels))
            && (DecodeName(p, o).Ok?
                <==>
                    LowerName(p, o).Some? && Pointers(p, o, |p| + 1) <= 128 && NameOctets(read.labels) <= 255)
            && (LowerName(p, o).Some? && DecodeName(p, o).Err? ==>
                DecodeName(p, o).error in {CompressionLoop, InvalidName})
  {
    hide NameOctets, LabelsFit;
    if JsonHalts(p, o) {
      var n := JsonStops(p, o, |p| + 1);
      JsonStopped(p, o, n, |p| + 1);
      PointersStopped(p, o, n, |p| + 1);
      LowerLimits(p, o, n, 0);
      DecodeLimits(p, o, n, 0, 1);
    } else {
      if LowerName(p, o).Some? {
        var n := LowerStops(p, o, 0);
        StopsWithinLength(p, o, n);
        JsonStopped(p, o, n, |p| + 1);
      }
      if DecodeName(p, o).Ok? {
        WalkersAgree(p, o);
      }
    }
  }

  // ---------------------------------------------------------------- names as octets

  /** Two labels as they stand on the wire, in the order in which they are read. */
  lemma {:induction false} TwoLabels(p: Bytes, o: nat, a: Bytes, b: Bytes)
    requires 1 <= |a| <= 63 && 1 <= |b| <= 63 && At(p, o, [|a|] + a + [|b|] + b + [0])
    ensures DecodeName(p, o) == Ok(Decoded([a, b], o + |a| + |b| + 3))
  {
    hide At;
    AtParts(p, o, [|a|] + a + [|b|] + b, [0]);
    AtParts(p, o, [|a|] + a + [|b|], b);
    AtParts(p, o, [|a|] + a, [|b|]);
    AtParts(p, o, [|a|], a);
    AtByte(p, o, |a|);
    AtByte(p, o + 1 + |a|, |b|);
    AtByte(p, o + 2 + |a| + |b|, 0);
    AtSlice(p, o + 1, a);
    AtSlice(p, o + 2 + |a|, b);
    var end := o + 2 + |a| + |b|;
    assert Decode(p, end, 0, 3 + |a| + |b|) == Ok(Decoded([], end + 1));
    assert [b] + [] == [b] && [a] + [b] == [a, b];
    assert Decode(p, o + 1 + |a|, 0, 2 + |a|) == Ok(Decoded([b], end + 1));
  }

  /** A pointer is two octets, 192 and the high six bits of an offset, then its low eight. */
  lemma {:induction false} PointerOctets(p: Bytes, o: nat, t: nat)
    requires t < |p| && t < 0x4000 && At(p, o, [192 + t / 256, t % 256]) && Decode(p, t, 1, 1).Ok?
    ensures DecodeName(p, o) == Ok(Decoded(Decode(p, t, 1, 1).value.labels, o + 2))
  {
    AtParts(p, o, [192 + t / 256], [t % 256]);
    AtByte(p, o, 192 + t / 256);
    AtByte(p, o + 1, t % 256);
  }

  /** Which error each way of failing gives. */
  lemma {:induction false} RefusedFor(p: Bytes, o: nat)
    ensures o >= |p| ==> DecodeName(p, o) == Err(ShortPacket) && Skip(p, o) == Err(ShortPacket)
    ensures o < |p| && 64 <= p[o] < 192 ==>
              DecodeName(p, o) == Err(InvalidLabelLength) && Skip(p, o) == Err(InvalidLabelLength)
              && (o + 1 < |p| ==> SkipName(p, o) == Err(LongLabel))
    ensures o + 1 == |p| && p[o] >= 192 ==>
              DecodeName(p, o) == Err(ShortPacket) && Skip(p, o) == Err(ShortPacket) && SkipName(p, o) == Err(TooShort)
    ensures o < |p| && 0 < p[o] < 64 && o + 1 + p[o] > |p| ==>
              DecodeName(p, o) == Err(ShortPacket) && Skip(p, o) == Err(ShortPacket)
              && (o + 1 < |p| ==> SkipName(p, o) == Err(NameOutOfBounds))
    ensures o + 1 < |p| && p[o] >= 192 && (p[o] as int - 192) * 256 + p[o + 1] as int >= |p| ==>
              DecodeName(p, o) == Err(InvalidName)
  {
  }

  /** A pointer at itself is refused as a loop. */
  lemma {:induction false} SelfPointerRefused(p: Bytes, o: nat)
    requires o + 1 < |p| && p[o] >= 192 && (p[o] as int - 192) * 256 + p[o + 1] as int == o
    ensures DecodeName(p, o) == Err(CompressionLoop)
  {
    SelfPointerFrom(p, o, 0);
  }

  lemma {:induction false} SelfPointerFrom(p: Bytes, o: nat, ptrs: nat)
    requires ptrs <= MAX_POINTERS && o + 1 < |p| && p[o] >= 192 && PointerTarget(p, o) == o
    ensures Decode(p, o, ptrs, 1) == Err(CompressionLoop)
    decreases MAX_POINTERS - ptrs
  {
    if ptrs < MAX_POINTERS {
      SelfPointerFrom(p, o, ptrs + 1);
    }
  }

  // ---------------------------------------------------------------- the JSON walker on a reply

  /** The JSON walker returns at `o`, with the labels of the decoder and the offset behind them. */
  predicate JsonReads(p: Bytes, o: nat) {
    DecodeName(p, o).Ok?
    && JsonFrom(p, o, |p| + 1) == Parsed(DecodeName(p, o).value.labels, DecodeName(p, o).value.next)
  }

  predicate JsonReadsQuestions(p: Bytes, o: nat, n: nat)
    requires Questions(p, o, n).Ok?
    decreases n
  {
    n == 0 || (JsonReads(p, o) && JsonReadsQuestions(p, QuestionAt(p, o).value.1, n - 1))
  }

  predicate JsonReadsOwners(p: Bytes, o: nat, n: nat)
    requires Section(p, o, n).Ok?
    decreases n
  {
    n == 0 || (JsonReads(p, o) && JsonReadsOwners(p, RecordAt(p, o).value.1, n - 1))
  }

  lemma {:induction false} QuestionsRead(p: Bytes, o: nat, n: nat)
    requires Questions(p, o, n).Ok?
    ensures JsonReadsQuestions(p, o, n)
    decreases n
  {
    hide QuestionAt, JsonReads;
    if n > 0 {
      QuestionsCons(p, o, n);
      QuestionRead(p, o);
      QuestionsRead(p, QuestionAt(p, o).value.1, n - 1);
    }
  }

  lemma {:induction false} QuestionRead(p: Bytes, o: nat)
    requires QuestionAt(p, o).Ok?
    ensures JsonReads(p, o)
  {
    hide Decode, FromU16, JsonFrom;
    WalkersAgree(p, o);
  }

  lemma {:induction false} OwnersRead(p: Bytes, o: nat, n: nat)
    requires Section(p, o, n).Ok?
    ensures JsonReadsOwners(p, o, n)
    decreases n
  {
    hide RecordAt, JsonReads;
    if n > 0 {
      SectionCons(p, o, n);
      OwnerRead(p, o);
      OwnersRead(p, RecordAt(p, o).value.1, n - 1);
    }
  }

  lemma {:induction false} OwnerRead(p: Bytes, o: nat)
    requires RecordAt(p, o).Ok?
    ensures JsonReads(p, o)
  {
    hide Decode, FromU16, JsonFrom;
    WalkersAgree(p, o);
  }

  /** On every packet the decoder accepts the JSON walker returns at every question and every owner. */
  lemma {:induction false} AcceptedNamesRead(p: Bytes)
    requires Unpack(p).Ok?
    ensures var (o1, o2, o3) := Bounds(p);
            && JsonReadsQuestions(p, HEADER_SIZE, U16(p, 4)) && JsonReadsOwners(p, o1, U16(p, 6))
            && JsonReadsOwners(p, o2, U16(p, 8)) && JsonReadsOwners(p, o3, U16(p, 10))
  {
    hide Section, Questions, HeaderFromBits, JsonReadsQuestions, JsonReadsOwners;
    var (o1, o2, o3) := Bounds(p);
    QuestionsRead(p, HEADER_SIZE, U16(p, 4));
    OwnersRead(p, o1, U16(p, 6));
    OwnersRead(p, o2, U16(p, 8));
    OwnersRead(p, o3, U16(p, 10));
  }

  // ---------------------------------------------------------------- names inside record data

  /** A reply with one CNAME answer whose data, at offset 28, is a pointer to itself. */
  const CNAME_TO_ITSELF: Bytes := [
    0, 1, 0x80, 0, 0, 1, 0, 1, 0, 0, 0, 0,
    0, 0, 5, 0, 1,
    0, 0, 5, 0, 1, 0, 0, 0, 9, 0, 2, 0xC0, 28]

  lemma {:induction false} CnameQuestion()
    ensures QuestionAt(CNAME_TO_ITSELF, 12).Ok? && QuestionAt(CNAME_TO_ITSELF, 12).value.1 == 17
  {
    assert DecodeName(CNAME_TO_ITSELF, 12) == Ok(Decoded([], 13));
  }

  lemma {:induction false} CnameRecord()
    ensures RecordAt(CNAME_TO_ITSELF, 17).Ok? && RecordAt(CNAME_TO_ITSELF, 17).value.1 == 30
    ensures var rr := RecordAt(CNAME_TO_ITSELF, 17).value.0;
            rr.rrType == CNAME && rr.rrClass == CLASS_IN && rr.rdata == CNAME_TO_ITSELF[28..30]
  {
    var p := CNAME_TO_ITSELF;
    assert DecodeName(p, 17) == Ok(Decoded([], 18));
    assert U16(p, 18) == 5 && U16(p, 20) == 1 && U16(p, 26) == 2;
  }

  lemma {:induction false} CnameHeader()
    ensures var p := CNAME_TO_ITSELF;
            && |p| == 30 && U16(p, 4) == 1 && U16(p, 6) == 1 && U16(p, 8) == 0 && U16(p, 10) == 0
            && Move(p, 28) == Some(28)
  {
    var p := CNAME_TO_ITSELF;
    assert p[28] == 0xC0 && p[29] == 28;
    assert PointerTarget(p, 28) == 28;
  }

  lemma {:induction false} OneOfEach(p: Bytes)
    requires |p| >= 12 && U16(p, 4) == 1 && U16(p, 6) == 1 && U16(p, 8) == 0 && U16(p, 10) == 0
    requires QuestionAt(p, 12).Ok? && RecordAt(p, QuestionAt(p, 12).value.1).Ok?
    requires RecordAt(p, QuestionAt(p, 12).value.1).value.1 == |p|
    ensures Unpack(p).Ok?
    ensures var m := Unpack(p).value;
            |m.questions| == 1 && m.answers == [RecordAt(p, QuestionAt(p, 12).value.1).value.0]
            && m.authorities == [] && m.additionals == []
  {
    hide QuestionAt, RecordAt, HeaderFromBits;
    var o := QuestionAt(p, 12).value.1;
    assert Questions(p, o, 0) == Ok(([], o));
    assert Section(p, |p|, 0) == Ok(([], |p|));
    assert [RecordAt(p, o).value.0] + [] == [RecordAt(p, o).value.0];
  }

  /**
    Names inside record data, which the decoder never looks at, are another matter: on this
    reply, which the decoder accepts and whose TTL is found, the walk over the CNAME's data
    does not return at any number of steps.
   */
  lemma {:induction false} DataNameNeverReturns(minTtl: uint32, maxTtl: uint32, failureTtl: uint32)
    ensures var p := CNAME_TO_ITSELF;
            && Unpack(p).Ok? && |Unpack(p).value.answers| == 1
            && Unpack(p).value.answers[0].rrType == CNAME && Unpack(p).value.answers[0].rrClass == CLASS_IN
            && Unpack(p).value.answers[0].rdata == p[28..30]
            && MinTtl(p, minTtl, maxTtl, failureTtl).Ok?
            && Returns(p, 28) && forall steps: nat :: JsonFrom(p, 28, steps) == OutOfSteps
  {
    hide CNAME_TO_ITSELF, Unpack, QuestionAt, RecordAt, MinTtl, JsonFrom;
    var p := CNAME_TO_ITSELF;
    CnameHeader();
    CnameQuestion();
    CnameRecord();
    OneOfEach(p);
    var m := Unpack(p).value;
    assert |m.answers + m.authorities + m.additionals| == 1;
    var _ := MinTtlExact(p, minTtl, maxTtl, failureTtl);
    JsonSelfPointer(p, 28);
  }
}
