/** The TTL the raw walker computes is the TTL of the decoded message. */
module MinTtlTheorem {
  import opened Wire
  import opened Names
  import opened NameAgreement
  import opened RrTypes
  import opened Messages
  import opened Layout
  import opened Edns

  /** `least` is the smallest TTL of the records that are not OPT, or `cap` if that is smaller. */
  ghost predicate IsLeast(least: uint32, cap: uint32, rrs: seq<Record>) {
    && least <= cap
    && (forall rr :: rr in rrs && !rr.rrType.OPT? ==> least <= rr.ttl)
    && (least == cap || exists rr :: rr in rrs && !rr.rrType.OPT? && rr.ttl == least)
  }

  lemma {:induction false} OptCode(code: uint16)
    ensures FromU16(code).OPT? <==> code == TYPE_OPT
  {
    hide FromU16, ToU16;
    CodeRoundTrip(code);
    TypeRoundTrip(OPT);
    OptToCode();
  }

  lemma {:induction false} OptToCode()
    ensures ToU16(OPT) == TYPE_OPT && Canonical(OPT)
  {
  }

  /** Every record the decoder accepts is one the raw walker steps over. */
  lemma {:induction false} RecordStep(p: Bytes, o: nat)
    requires RecordAt(p, o).Ok?
    ensures StepAt(p, o) == Ok(Span(o, DecodeName(p, o).value.next, RecordAt(p, o).value.1))
  {
    hide Decode, FromU16;
    WalkersAgree(p, o);
  }

  lemma {:induction false} IsLeastCons(least: uint32, cap: uint32, rr: Record, rest: seq<Record>)
    requires IsLeast(least, if !rr.rrType.OPT? && rr.ttl < cap then rr.ttl else cap, rest)
    ensures IsLeast(least, cap, [rr] + rest)
  {
    var all := [rr] + rest;
    assert all[0] == rr && forall r :: r in all <==> r == rr || r in rest;
  }

  lemma {:induction false} SectionLeast(p: Bytes, o: nat, n: nat, cap: uint32) returns (least: uint32)
    requires |p| > 0 && Section(p, o, n).Ok?
    ensures LeastTtl(p, o, n, cap) == Ok(Least(least, Section(p, o, n).value.1))
    ensures IsLeast(least, cap, Section(p, o, n).value.0)
    decreases n
  {
    hide Decode, FromU16, StepAt, IsLeast, DecodeName;
    if n == 0 {
      least := cap;
      LeastOfNone(cap);
    } else {
      var (rr, next) := RecordAt(p, o).value;
      var body := DecodeName(p, o).value.next;
      RecordStep(p, o);
      OptCode(U16(p, body));
      least := SectionLeast(p, next, n - 1, if !rr.rrType.OPT? && rr.ttl < cap then rr.ttl else cap);
      IsLeastCons(least, cap, rr, Section(p, next, n - 1).value.0);
    }
  }

  lemma {:induction false} LeastOfNone(cap: uint32)
    ensures IsLeast(cap, cap, [])
  {
  }

  lemma {:induction false} LeastTtlAppend(p: Bytes, o: nat, m: nat, n: nat, cap: uint32)
    requires |p| > 0 && LeastTtl(p, o, m, cap).Ok?
    ensures LeastTtl(p, o, m + n, cap)
        == LeastTtl(p, LeastTtl(p, o, m, cap).value.end, n, LeastTtl(p, o, m, cap).value.ttl)
    decreases m
  {
    hide StepAt;
    if m > 0 {
      var s := StepAt(p, o).value;
      var ttl := U32(p, s.body + 4);
      LeastTtlAppend(p, s.end, m - 1, n, if !IsOpt(p, s) && ttl < cap then ttl else cap);
    }
  }

  lemma {:induction false} IsLeastAppend(l1: uint32, l2: uint32, cap: uint32, a: seq<Record>, b: seq<Record>)
    requires IsLeast(l1, cap, a) && IsLeast(l2, l1, b)
    ensures IsLeast(l2, cap, a + b)
  {
    assert forall r :: r in a + b <==> r in a || r in b;
  }

  lemma {:induction false} QuestionStep(p: Bytes)
    requires |p| >= HEADER_SIZE && QuestionAt(p, HEADER_SIZE).Ok?
    ensures SkipName(p, HEADER_SIZE) == Ok(QuestionAt(p, HEADER_SIZE).value.1 - 4)
  {
    hide Decode, FromU16;
    WalkersAgree(p, HEADER_SIZE);
  }

  lemma {:induction false} OneQuestion(p: Bytes)
    requires Questions(p, HEADER_SIZE, 1).Ok?
    ensures QuestionAt(p, HEADER_SIZE).Ok?
    ensures Questions(p, HEADER_SIZE, 1).value.1 == QuestionAt(p, HEADER_SIZE).value.1
  {
    hide QuestionAt;
    assert QuestionAt(p, HEADER_SIZE).Ok?;
    assert Questions(p, QuestionAt(p, HEADER_SIZE).value.1, 0) == Ok(([], QuestionAt(p, HEADER_SIZE).value.1));
  }

  /** All three sections of an accepted packet, walked as one. */
  lemma {:induction false} AllSectionsLeast(p: Bytes, start: nat, an: nat, ns: nat, ar: nat, cap: uint32)
    returns (least: uint32)
    requires |p| > 0 && Section(p, start, an).Ok?
    requires Section(p, Section(p, start, an).value.1, ns).Ok?
    requires Section(p, Section(p, Section(p, start, an).value.1, ns).value.1, ar).Ok?
    ensures var a := Section(p, start, an).value;
            var b := Section(p, a.1, ns).value;
            var c := Section(p, b.1, ar).value;
            LeastTtl(p, start, an + ns + ar, cap) == Ok(Least(least, c.1)) && IsLeast(least, cap, a.0 + b.0 + c.0)
  {
    hide Section, LeastTtl, IsLeast;
    var a := Section(p, start, an).value;
    var b := Section(p, a.1, ns).value;
    var c := Section(p, b.1, ar).value;
    var l1 := SectionLeast(p, start, an, cap);
    var l2 := SectionLeast(p, a.1, ns, l1);
    least := SectionLeast(p, b.1, ar, l2);
    LeastTtlAppend(p, start, an, ns, cap);
    LeastTtlAppend(p, start, an + ns, ar, cap);
    IsLeastAppend(l1, l2, cap, a.0, b.0);
    IsLeastAppend(l2, least, cap, a.0 + b.0, c.0);
  }

  /**
    On a packet the decoder accepts, with one question and at most 4096 bytes, min_ttl succeeds
    if and only if there is a record, and then returns the least TTL of the records other than
    OPT, clamped between the two bounds.  The failure TTL is never returned.
   */
  lemma {:induction false} MinTtlExact(p: Bytes, minTtl: uint32, maxTtl: uint32, failureTtl: uint32)
    returns (least: uint32)
    requires Unpack(p).Ok? && |Unpack(p).value.questions| == 1 && |p| <= MAX_PACKET
    ensures var m := Unpack(p).value;
            var rrs := m.answers + m.authorities + m.additionals;
            if |rrs| == 0 then MinTtl(p, minTtl, maxTtl, failureTtl).Err?
            else IsLeast(least, maxTtl, rrs)
                 && MinTtl(p, minTtl, maxTtl, failureTtl) == Ok(if least < minTtl then minTtl else least)
  {
    hide IsLeast, Section, LeastTtl, HeaderFromBits, QuestionAt, SkipName;
    var m := Unpack(p).value;
    assert U16(p, 4) == 1;
    var start := Questions(p, HEADER_SIZE, 1).value.1;
    OneQuestion(p);
    QuestionStep(p);
    var an, ns, ar := U16(p, 6) as nat, U16(p, 8) as nat, U16(p, 10) as nat;
    least := AllSectionsLeast(p, start, an, ns, ar, maxTtl);
    SectionNone(p, start);
  }

  lemma {:induction false} SectionNone(p: Bytes, o: nat)
    ensures Section(p, o, 0) == Ok(([], o))
  {
  }

  // ---------------------------------------------------------------- on every packet

  /** `least` is the smallest TTL field at these spans among types other than 41, or `cap` if that is smaller. */
  ghost predicate LeastField(p: Bytes, list: seq<Span>, least: uint32, cap: uint32)
    requires forall s :: s in list ==> s.In(p)
  {
    && least <= cap
    && (forall s :: s in list && s.In(p) && U16(p, s.body) != 41 ==> least <= U32(p, s.body + 4))
    && (least == cap || exists s :: s in list && s.In(p) && U16(p, s.body) != 41 && U32(p, s.body + 4) == least)
  }

  lemma {:induction false} LeastFieldCons(p: Bytes, s: Span, rest: seq<Span>, least: uint32, cap: uint32)
    requires s.In(p) && forall r :: r in rest ==> r.In(p)
    requires var ttl := U32(p, s.body + 4);
             LeastField(p, rest, least, if U16(p, s.body) != 41 && ttl < cap then ttl else cap)
    ensures LeastField(p, [s] + rest, least, cap)
  {
    var all := [s] + rest;
    assert all[0] == s && forall r :: r in all <==> r == s || r in rest;
  }

  /** The walk with the TTL callback is the walk of spans. */
  lemma {:induction false} LeastWalks(p: Bytes, o: nat, n: nat, cap: uint32)
    requires |p| > 0
    ensures LeastTtl(p, o, n, cap).Ok? <==> Traverse(p, o, n).Ok?
    ensures Traverse(p, o, n).Ok? ==>
              var t := Traverse(p, o, n).value;
              && LeastTtl(p, o, n, cap).value.end == t.end && (forall s :: s in t.list ==> s.In(p))
              && LeastField(p, t.list, LeastTtl(p, o, n, cap).value.ttl, cap)
    decreases n
  {
    hide SkipName, LeastField, U16, U32;
    if n == 0 {
      NoLeastField(p, cap);
    } else if StepAt(p, o).Ok? {
      var s := StepAt(p, o).value;
      var ttl := U32(p, s.body + 4);
      var cap' := if !IsOpt(p, s) && ttl < cap then ttl else cap;
      LeastWalks(p, s.end, n - 1, cap');
      if Traverse(p, s.end, n - 1).Ok? {
        LeastFieldCons(p, s, Traverse(p, s.end, n - 1).value.list, LeastTtl(p, s.end, n - 1, cap').value.ttl, cap);
      }
    }
  }

  lemma {:induction false} NoLeastField(p: Bytes, cap: uint32)
    ensures LeastField(p, [], cap, cap)
  {
  }

  lemma {:induction false} TraverseParts(p: Bytes, o: nat, m: nat, n: nat)
    requires |p| > 0
    ensures Traverse(p, o, m + n).Ok? <==>
              Traverse(p, o, m).Ok? && Traverse(p, Traverse(p, o, m).value.end, n).Ok?
    ensures Traverse(p, o, m + n).Ok? ==>
              var a := Traverse(p, o, m).value;
              var b := Traverse(p, a.end, n).value;
              Traverse(p, o, m + n).value == Spans(a.list + b.list, b.end)
    decreases m
  {
    hide StepAt;
    if m > 0 && StepAt(p, o).Ok? {
      var s := StepAt(p, o).value;
      TraverseParts(p, s.end, m - 1, n);
      if Traverse(p, s.end, m - 1).Ok? {
        var a := Traverse(p, s.end, m - 1).value;
        if Traverse(p, a.end, n).Ok? {
          ConcatAssoc([s], a.list, Traverse(p, a.end, n).value.list);
        }
      }
    } else if m == 0 && Traverse(p, o, n).Ok? {
      assert [] + Traverse(p, o, n).value.list == Traverse(p, o, n).value.list;
    }
  }

  /**
    On every packet: min_ttl succeeds if and only if the packet has at most 4096 bytes and one question,
    its records walk exactly to its end and there is one; the value is the least TTL field of the
    records whose type is not 41, clamped.
   */
  lemma {:induction false} MinTtlOnEveryPacket(p: Bytes, minTtl: uint32, maxTtl: uint32, failureTtl: uint32)
    returns (list: seq<Span>, least: uint32)
    ensures MinTtl(p, minTtl, maxTtl, failureTtl).Ok? <==>
              |p| <= 4096 && LayoutOf(p).Some? && |LayoutOf(p).value.main| + |LayoutOf(p).value.extra| > 0
    ensures MinTtl(p, minTtl, maxTtl, failureTtl).Ok? ==>
              && list == LayoutOf(p).value.main + LayoutOf(p).value.extra && (forall s :: s in list ==> s.In(p))
              && LeastField(p, list, least, maxTtl)
              && MinTtl(p, minTtl, maxTtl, failureTtl).value == if least < minTtl then minTtl else least
  {
    hide SkipName, LeastField, Traverse, LeastTtl;
    list, least := [], 0;
    if 12 < |p| <= 4096 && U16(p, 4) == 1 && SkipName(p, HEADER_SIZE).Ok? {
      var o := SkipName(p, HEADER_SIZE).value + 4;
      var m, n := U16(p, 6) as nat + U16(p, 8) as nat, U16(p, 10) as nat;
      if m + n > 0 {
        TraverseParts(p, o, m, n);
        LeastWalks(p, o, m + n, maxTtl);
        if Traverse(p, o, m + n).Ok? {
          list, least := Traverse(p, o, m + n).value.list, LeastTtl(p, o, m + n, maxTtl).value.ttl;
        }
      } else {
        NoWalk(p, o, failureTtl);
      }
    }
  }

  lemma {:induction false} NoWalk(p: Bytes, o: nat, cap: uint32)
    requires |p| > 0
    ensures Traverse(p, o, 0) == Ok(Spans([], o)) && LeastTtl(p, o, 0, cap) == Ok(Least(cap, o))
  {
  }
}
