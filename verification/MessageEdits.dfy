/**
  What the packet editors do to the decoded message.  A packet may compress its names, so each
  theorem asks that no name reads a field the editor writes.
 */
module MessageEdits {
  import opened Wire
  import opened Names
  import opened RrTypes
  import opened Messages
  import opened RewriteRefinement
  import opened Layout
  import opened Edns
  import opened EdnsTheorems
  import opened PaddingTheorems
  import opened Ecs
  import opened EcsTheorems
  import opened MinTtlTheorem

  // ---------------------------------------------------------------- sections in parts

  lemma {:induction false} SectionEmpty(p: Bytes, o: nat)
    ensures Section(p, o, 0) == Ok(([], o))
  {
  }

  lemma {:induction false} SectionSplit(p: Bytes, o: nat, m: nat, n: nat)
    requires Section(p, o, m + n).Ok?
    ensures Section(p, o, m).Ok? && Section(p, Section(p, o, m).value.1, n).Ok?
    ensures var a := Section(p, o, m).value;
            var b := Section(p, a.1, n).value;
            Section(p, o, m + n).value == (a.0 + b.0, b.1)
    decreases m
  {
    hide RecordAt;
    if m > 0 {
      var (rr, next) := RecordAt(p, o).value;
      SectionSplit(p, next, m - 1, n);
      var a := Section(p, next, m - 1).value;
      ConcatAssoc([rr], a.0, Section(p, a.1, n).value.0);
    } else {
      assert [] + Section(p, o, n).value.0 == Section(p, o, n).value.0;
    }
  }

  lemma {:induction false} SectionJoin(p: Bytes, o: nat, m: nat, n: nat)
    requires Section(p, o, m).Ok? && Section(p, Section(p, o, m).value.1, n).Ok?
    ensures var a := Section(p, o, m).value;
            var b := Section(p, a.1, n).value;
            Section(p, o, m + n) == Ok((a.0 + b.0, b.1))
    decreases m
  {
    hide RecordAt;
    if m > 0 {
      var (rr, next) := RecordAt(p, o).value;
      SectionJoin(p, next, m - 1, n);
      var a := Section(p, next, m - 1).value;
      ConcatAssoc([rr], a.0, Section(p, a.1, n).value.0);
    } else {
      assert [] + Section(p, o, n).value.0 == Section(p, o, n).value.0;
    }
  }

  lemma {:induction false} SectionOne(p: Bytes, o: nat)
    ensures Section(p, o, 1).Ok? <==> RecordAt(p, o).Ok?
    ensures RecordAt(p, o).Ok? ==> Section(p, o, 1) == Ok(([RecordAt(p, o).value.0], RecordAt(p, o).value.1))
  {
    hide RecordAt;
    if RecordAt(p, o).Ok? {
      var (rr, next) := RecordAt(p, o).value;
      SectionEmpty(p, next);
      assert [rr] + [] == [rr];
    }
  }

  lemma {:induction false} OwnersSameSplit(p: Bytes, q: Bytes, o: nat, m: nat, n: nat)
    requires Section(p, o, m + n).Ok? && OwnersSame(p, q, o, m + n)
    requires Section(p, o, m).Ok? && Section(p, Section(p, o, m).value.1, n).Ok?
    ensures OwnersSame(p, q, o, m) && OwnersSame(p, q, Section(p, o, m).value.1, n)
    decreases m
  {
    hide RecordAt, NameSame;
    if m > 0 {
      OwnersSameSplit(p, q, RecordAt(p, o).value.1, m - 1, n);
    }
  }

  lemma {:induction false} OwnersSameOne(p: Bytes, q: Bytes, o: nat)
    requires Section(p, o, 1).Ok? && OwnersSame(p, q, o, 1)
    ensures NameSame(p, q, o)
  {
    hide NameSame, RecordAt;
  }

  // ---------------------------------------------------------------- sections that keep their bytes

  ghost predicate SameBytes(p: Bytes, q: Bytes, from: nat, to: nat) {
    to <= |p| <= |q| && forall i :: from <= i < to ==> q[i] == p[i]
  }

  lemma {:induction false} SameBytesFewer(p: Bytes, q: Bytes, from: nat, to: nat, from': nat, to': nat)
    requires SameBytes(p, q, from, to) && from <= from' && to' <= to
    ensures SameBytes(p, q, from', to')
  {
  }

  lemma {:induction false} SameField(p: Bytes, q: Bytes, from: nat, to: nat, o: nat)
    requires SameBytes(p, q, from, to) && from <= o && o + 2 <= to
    ensures U16(q, o) == U16(p, o)
  {
  }

  lemma {:induction false} RecordFramed(p: Bytes, q: Bytes, o: nat)
    requires RecordAt(p, o).Ok? && NameSame(p, q, o) && SameBytes(p, q, o, RecordAt(p, o).value.1)
    ensures RecordAt(q, o) == RecordAt(p, o)
  {
    hide Decode, FromU16;
    var next := DecodeName(p, o).value.next;
    var end := RecordAt(p, o).value.1;
    assert q[next + 10..end] == p[next + 10..end];
  }

  lemma {:induction false} SectionEnds(p: Bytes, o: nat, n: nat)
    requires Section(p, o, n).Ok? && o <= |p|
    ensures o <= Section(p, o, n).value.1 <= |p| && |Section(p, o, n).value.0| == n
  {
  }

  lemma {:induction false} SectionFramed(p: Bytes, q: Bytes, o: nat, n: nat)
    requires o <= |p| && Section(p, o, n).Ok? && OwnersSame(p, q, o, n)
    requires SameBytes(p, q, o, Section(p, o, n).value.1)
    ensures Section(q, o, n) == Section(p, o, n)
    decreases n
  {
    hide RecordAt, NameSame, SameBytes;
    if n > 0 {
      var next := RecordAt(p, o).value.1;
      var end := Section(p, next, n - 1).value.1;
      SectionEnds(p, next, n - 1);
      SameBytesFewer(p, q, o, end, o, next);
      SameBytesFewer(p, q, o, end, next, end);
      RecordFramed(p, q, o);
      SectionFramed(p, q, next, n - 1);
    }
  }

  // ---------------------------------------------------------------- a message in its parts

  /** An accepted packet up to its additional section: where that starts, and its records. */
  lemma {:induction false} Accepted(p: Bytes) returns (o: nat)
    requires Unpack(p).Ok?
    ensures o == Bounds(p).2 && HEADER_SIZE <= o <= |p| && |Unpack(p).value.additionals| == U16(p, 10)
    ensures Section(p, o, U16(p, 10)) == Ok((Unpack(p).value.additionals, |p|))
    ensures |Unpack(p).value.questions| == U16(p, 4)
  {
    hide Section, Questions, HeaderFromBits;
    o := Bounds(p).2;
  }

  lemma {:induction false} AdditionalOwnersSame(p: Bytes, q: Bytes)
    requires Unpack(p).Ok? && NamesSame(p, q)
    ensures OwnersSame(p, q, Bounds(p).2, U16(p, 10))
  {
    hide Section, Questions, HeaderFromBits, OwnersSame, QuestionNamesSame;
  }

  /** Everything up to the additional section kept but its count: the message differs there only. */
  lemma {:induction false} UnpackFrom(p: Bytes, q: Bytes, rrs: seq<Record>)
    requires Unpack(p).Ok? && NamesSame(p, q) && SameBytes(p, q, 0, 10) && SameBytes(p, q, HEADER_SIZE, Bounds(p).2)
    requires Section(q, Bounds(p).2, U16(q, 10)) == Ok((rrs, |q|))
    ensures Unpack(q) == Ok(Unpack(p).value.(additionals := rrs))
  {
    hide Section, Questions, HeaderFromBits, OwnersSame, QuestionNamesSame, SameBytes, U16;
    var (o1, o2, o3) := Bounds(p);
    SameField(p, q, 0, 10, 0);
    SameField(p, q, 0, 10, 2);
    SameField(p, q, 0, 10, 4);
    SameField(p, q, 0, 10, 6);
    SameField(p, q, 0, 10, 8);
    SameBytesFewer(p, q, HEADER_SIZE, o3, o1, o2);
    SameBytesFewer(p, q, HEADER_SIZE, o3, o2, o3);
    SectionFramed(p, q, o1, U16(p, 6));
    SectionFramed(p, q, o2, U16(p, 8));
    FramedQuestions(p, q, o1, o3);
    SameLength(p, q, 0, 10);
  }

  lemma {:induction false} SameLength(p: Bytes, q: Bytes, from: nat, to: nat)
    requires SameBytes(p, q, from, to)
    ensures |p| <= |q|
  {
  }

  lemma {:induction false} FramedQuestions(p: Bytes, q: Bytes, o1: nat, o3: nat)
    requires HEADER_SIZE <= |p| && Questions(p, HEADER_SIZE, U16(p, 4)).Ok?
    requires o1 == Questions(p, HEADER_SIZE, U16(p, 4)).value.1 <= o3 && SameBytes(p, q, HEADER_SIZE, o3)
    requires QuestionNamesSame(p, q, HEADER_SIZE, U16(p, 4))
    ensures Questions(q, HEADER_SIZE, U16(p, 4)) == Questions(p, HEADER_SIZE, U16(p, 4))
  {
    hide Questions, QuestionNamesSame;
    QuestionsKept(p, q, HEADER_SIZE, U16(p, 4));
  }

  /** Names that avoid every position at which the packets differ are the same in both. */
  lemma {:induction false} AvoidedSame(p: Bytes, q: Bytes, positions: set<nat>)
    requires Unpack(p).Ok? && NamesAvoid(p, positions) && |p| <= |q|
    requires forall i: nat :: i < |p| && i !in positions ==> q[i] == p[i]
    ensures NamesSame(p, q)
  {
    hide Unpack, NamesAvoid, NamesSame;
    NamesAvoidFewer(p, positions, Changed(p, q));
    NamesAvoidSame(p, q);
  }

  /** An accepted packet with anything behind it is refused for its trailing bytes. */
  lemma {:induction false} TrailingRefused(p: Bytes, more: Bytes)
    requires Unpack(p).Ok? && |more| > 0
    ensures Unpack(p + more) == Err(TrailingBytes)
  {
    hide Unpack, NamesAvoid, NamesSame, SameBytes, Section, OwnersSame;
    var q := p + more;
    var o := Accepted(p);
    NothingAvoided(p);
    AvoidedSame(p, q, {});
    AdditionalOwnersSame(p, q);
    PrefixSame(p, more);
    SameBytesFewer(p, q, 0, |p|, o, |p|);
    SectionFramed(p, q, o, U16(p, 10));
    UnpackStops(p, q);
  }

  lemma {:induction false} PrefixSame(p: Bytes, more: Bytes)
    ensures SameBytes(p, p + more, 0, |p|)
  {
  }

  lemma {:induction false} NothingAvoided(p: Bytes)
    requires Unpack(p).Ok?
    ensures NamesAvoid(p, {})
  {
    hide Section, Questions, HeaderFromBits, QuestionAt, RecordAt;
    var (o1, o2, o3) := Bounds(p);
    QuestionsAvoidNothing(p, HEADER_SIZE, U16(p, 4));
    OwnersAvoidNothing(p, o1, U16(p, 6));
    OwnersAvoidNothing(p, o2, U16(p, 8));
    OwnersAvoidNothing(p, o3, U16(p, 10));
  }

  lemma {:induction false} QuestionsAvoidNothing(p: Bytes, o: nat, n: nat)
    requires Questions(p, o, n).Ok?
    ensures QuestionNamesAvoid(p, o, n, {})
    decreases n
  {
    hide Decode, FromU16;
    if n > 0 {
      QuestionsAvoidNothing(p, QuestionAt(p, o).value.1, n - 1);
    }
  }

  lemma {:induction false} OwnersAvoidNothing(p: Bytes, o: nat, n: nat)
    requires Section(p, o, n).Ok?
    ensures OwnersAvoid(p, o, n, {})
    decreases n
  {
    hide Decode, FromU16;
    if n > 0 {
      OwnersAvoidNothing(p, RecordAt(p, o).value.1, n - 1);
    }
  }

  lemma {:induction false} UnpackStops(p: Bytes, q: Bytes)
    requires Unpack(p).Ok? && NamesSame(p, q) && SameBytes(p, q, 0, |p|) && |q| > |p|
    requires Section(q, Bounds(p).2, U16(p, 10)) == Section(p, Bounds(p).2, U16(p, 10))
    ensures Unpack(q) == Err(TrailingBytes)
  {
    hide Section, Questions, HeaderFromBits, OwnersSame, QuestionNamesSame, SameBytes, U16;
    var (o1, o2, o3) := Bounds(p);
    SameField(p, q, 0, |p|, 4);
    SameField(p, q, 0, |p|, 6);
    SameField(p, q, 0, |p|, 8);
    SameField(p, q, 0, |p|, 10);
    SameBytesFewer(p, q, 0, |p|, o1, o2);
    SameBytesFewer(p, q, 0, |p|, o2, o3);
    SameBytesFewer(p, q, 0, |p|, HEADER_SIZE, o3);
    SectionFramed(p, q, o1, U16(p, 6));
    SectionFramed(p, q, o2, U16(p, 8));
    FramedQuestions(p, q, o1, o3);
  }

  // ---------------------------------------------------------------- one additional record edited

  /** Where additional record `k` of an accepted packet starts. */
  ghost function ExtraStart(p: Bytes, k: nat): (o: nat)
    requires Unpack(p).Ok? && k < |Unpack(p).value.additionals|
    ensures HEADER_SIZE <= o <= |p| && RecordAt(p, o).Ok? && RecordAt(p, o).value.0 == Unpack(p).value.additionals[k]
  {
    ExtraAt(p, k);
    Section(p, Bounds(p).2, k).value.1
  }

  /** The additional section around record `k`. */
  lemma {:induction false} ExtraAt(p: Bytes, k: nat)
    requires Unpack(p).Ok? && k < |Unpack(p).value.additionals|
    ensures Section(p, Bounds(p).2, k).Ok?
    ensures var rrs, a := Unpack(p).value.additionals, Section(p, Bounds(p).2, k).value;
            && HEADER_SIZE <= Bounds(p).2 <= a.1 <= |p| && a.0 == rrs[..k]
            && RecordAt(p, a.1).Ok? && RecordAt(p, a.1).value.0 == rrs[k]
            && Section(p, RecordAt(p, a.1).value.1, |rrs| - k - 1) == Ok((rrs[k + 1..], |p|))
  {
    hide Unpack, Section, RecordAt;
    var o := Accepted(p);
    var n := |Unpack(p).value.additionals|;
    SectionSplit(p, o, k, n - k);
    SectionEnds(p, o, k);
    SectionSplit(p, Section(p, o, k).value.1, 1, n - k - 1);
    SectionOne(p, Section(p, o, k).value.1);
    SplitAround(Unpack(p).value.additionals, Section(p, o, k).value.0,
                RecordAt(p, Section(p, o, k).value.1).value.0,
                Section(p, RecordAt(p, Section(p, o, k).value.1).value.1, n - k - 1).value.0);
  }

  lemma {:induction false} SplitAround<T>(all: seq<T>, a: seq<T>, x: T, b: seq<T>)
    requires all == a + ([x] + b)
    ensures a == all[..|a|] && x == all[|a|] && b == all[|a| + 1..]
  {
  }

  /** Record `k` read anew and all others kept: the message differs in that record only. */
  lemma {:induction false} ExtraEdited(p: Bytes, q: Bytes, k: nat, rr: Record)
    requires Unpack(p).Ok? && k < |Unpack(p).value.additionals| && NamesSame(p, q) && U16(q, 10) == U16(p, 10)
    requires SameBytes(p, q, 0, ExtraStart(p, k)) && RecordAt(q, ExtraStart(p, k)).Ok?
    requires RecordAt(q, ExtraStart(p, k)).value.0 == rr
    requires var end, end' := RecordAt(p, ExtraStart(p, k)).value.1, RecordAt(q, ExtraStart(p, k)).value.1;
             if k == |Unpack(p).value.additionals| - 1 then end' == |q|
             else |q| == |p| && end' == end && SameBytes(p, q, end, |p|)
    ensures Unpack(q) == Ok(Unpack(p).value.(additionals := Unpack(p).value.additionals[k := rr]))
  {
    hide Unpack, Section, RecordAt, NamesSame, OwnersSame, NameSame, SameBytes, U16;
    var rrs := Unpack(p).value.additionals;
    var n := |rrs|;
    var o := Accepted(p);
    var at := ExtraStart(p, k);
    var end, end' := RecordAt(p, at).value.1, RecordAt(q, at).value.1;
    ExtraAt(p, k);
    AdditionalOwnersSame(p, q);
    SectionSplit(p, o, k, n - k);
    OwnersSameSplit(p, q, o, k, n - k);
    SameBytesFewer(p, q, 0, at, o, at);
    SectionFramed(p, q, o, k);
    if k < n - 1 {
      SectionOne(p, at);
      OwnersSameSplit(p, q, at, 1, n - k - 1);
      SectionFramed(p, q, end, n - k - 1);
    } else {
      SectionEmpty(q, end');
      SectionEmpty(p, end);
    }
    SectionOne(q, at);
    SectionJoin(q, at, 1, n - k - 1);
    SectionJoin(q, o, k, n - k);
    assert rrs[k := rr] == rrs[..k] + ([rr] + rrs[k + 1..]);
    SameBytesFewer(p, q, 0, at, 0, 10);
    SameBytesFewer(p, q, 0, at, HEADER_SIZE, o);
    UnpackFrom(p, q, rrs[k := rr]);
  }

  // ---------------------------------------------------------------- the three edits

  /** Where the fixed part of additional record `k` stands. */
  ghost function ExtraBody(p: Bytes, k: nat): (o: nat)
    requires Unpack(p).Ok? && k < |Unpack(p).value.additionals|
    ensures HEADER_SIZE <= ExtraStart(p, k) < o
    ensures o + 10 + |Unpack(p).value.additionals[k].rdata| == RecordAt(p, ExtraStart(p, k)).value.1 <= |p|
  {
    DecodeName(p, ExtraStart(p, k)).value.next
  }

  /** The fields of additional record `k`. */
  lemma {:induction false} ExtraFields(p: Bytes, k: nat)
    requires Unpack(p).Ok? && k < |Unpack(p).value.additionals|
    ensures var rr, body := Unpack(p).value.additionals[k], ExtraBody(p, k);
            && DecodeName(p, ExtraStart(p, k)) == Ok(Decoded(rr.name, body))
            && FromU16(U16(p, body)) == rr.rrType && U16(p, body + 2) == rr.rrClass && U32(p, body + 4) == rr.ttl
            && U16(p, body + 8) == |rr.rdata| && p[body + 10..body + 10 + |rr.rdata|] == rr.rdata
  {
    hide Unpack, ExtraStart, Decode, DecodeName, FromU16;
  }

  lemma {:induction false} RecordRead(q: Bytes, o: nat, name: Labels, body: nat)
    requires DecodeName(q, o) == Ok(Decoded(name, body)) && body + 10 <= |q|
    requires body + 10 + U16(q, body + 8) <= |q|
    ensures var end := body + 10 + U16(q, body + 8);
            RecordAt(q, o) == Ok((Record(name, FromU16(U16(q, body)), U16(q, body + 2), U32(q, body + 4),
                                         q[body + 10..end]), end))
  {
    hide Decode, DecodeName, FromU16;
  }

  lemma {:induction false} ExtraNameSame(p: Bytes, q: Bytes, k: nat)
    requires Unpack(p).Ok? && k < |Unpack(p).value.additionals| && NamesSame(p, q)
    ensures DecodeName(q, ExtraStart(p, k)) == DecodeName(p, ExtraStart(p, k))
  {
    hide Unpack, Section, RecordAt, NamesSame, OwnersSame, DecodeName;
    var n := |Unpack(p).value.additionals|;
    var o := Accepted(p);
    ExtraAt(p, k);
    AdditionalOwnersSame(p, q);
    SectionSplit(p, o, k, n - k);
    OwnersSameSplit(p, q, o, k, n - k);
    var at := ExtraStart(p, k);
    SectionOne(p, at);
    OwnersSameSplit(p, q, at, 1, n - k - 1);
    OwnersSameOne(p, q, at);
  }

  lemma {:induction false} LastAtEnd(p: Bytes)
    requires Unpack(p).Ok? && |Unpack(p).value.additionals| > 0
    ensures RecordAt(p, ExtraStart(p, |Unpack(p).value.additionals| - 1)).value.1 == |p|
  {
    hide Unpack, Section, RecordAt;
    var k := |Unpack(p).value.additionals| - 1;
    ExtraAt(p, k);
    SectionEmpty(p, RecordAt(p, ExtraStart(p, k)).value.1);
  }

  lemma {:induction false} PutElsewhere(p: Bytes, o: nat, n: uint16, more: Bytes)
    requires o + 2 <= |p|
    ensures var q := Put16(p, o, n) + more;
            && |q| == |p| + |more| && U16(q, o) == n
            && (forall i: nat :: i < |p| && i !in {o, o + 1} ==> q[i] == p[i])
            && SameBytes(p, q, 0, o) && SameBytes(p, q, o + 2, |p|)
  {
  }

  /** The class of additional record `k` overwritten. */
  lemma {:induction false} ClassWritten(p: Bytes, k: nat, size: uint16)
    requires Unpack(p).Ok? && k < |Unpack(p).value.additionals|
    requires NamesAvoid(p, {ExtraBody(p, k) + 2, ExtraBody(p, k) + 3})
    ensures var m := Unpack(p).value;
            Unpack(Put16(p, ExtraBody(p, k) + 2, size))
            == Ok(m.(additionals := m.additionals[k := m.additionals[k].(rrClass := size)]))
  {
    hide Unpack, NamesAvoid, NamesSame, ExtraStart, ExtraBody, RecordAt, Put16, DecodeName, FromU16, SameBytes, U16,
      U32;
    var at, body := ExtraStart(p, k), ExtraBody(p, k);
    var rr := Unpack(p).value.additionals[k];
    var end := RecordAt(p, at).value.1;
    var q := Put16(p, body + 2, size);
    PutElsewhere(p, body + 2, size, []);
    assert Put16(p, body + 2, size) + [] == q;
    AvoidedSame(p, q, {body + 2, body + 3});
    ExtraNameSame(p, q, k);
    ExtraFields(p, k);
    FixedKept(p, q, body, end, size);
    RecordRead(q, at, rr.name, body);
    LastAtEnd(p);
    SameBytesFewer(p, q, 0, body + 2, 0, at);
    SameBytesFewer(p, q, body + 4, |p|, end, |p|);
    ExtraEdited(p, q, k, rr.(rrClass := size));
  }

  lemma {:induction false} FixedKept(p: Bytes, q: Bytes, body: nat, end: nat, size: uint16)
    requires HEADER_SIZE <= body && body + 10 <= end <= |p| && q == Put16(p, body + 2, size)
    ensures |q| == |p| && U16(q, body) == U16(p, body) && U16(q, body + 2) == size
    ensures U32(q, body + 4) == U32(p, body + 4)
    ensures U16(q, body + 8) == U16(p, body + 8) && q[body + 10..end] == p[body + 10..end] && U16(q, 10) == U16(p, 10)
  {
  }

  /** Data appended to the last record at the packet's end and counted in its length. */
  lemma {:induction false} DataAppended(p: Bytes, k: nat, rr: Record, body: nat, more: Bytes)
    requires Unpack(p).Ok? && k + 1 == |Unpack(p).value.additionals| && rr == Unpack(p).value.additionals[k]
    requires |rr.rdata| + |more| < 0x1_0000 && body == ExtraBody(p, k) && NamesAvoid(p, {body + 8, body + 9})
    ensures Unpack(Put16(p, body + 8, |rr.rdata| + |more|) + more)
         == Ok(Unpack(p).value.(additionals := Unpack(p).value.additionals[k := rr.(rdata := rr.rdata + more)]))
  {
    hide Unpack, NamesAvoid, NamesSame, ExtraStart, ExtraBody, RecordAt, Put16, DecodeName, FromU16, SameBytes, U16,
      U32;
    var at := ExtraStart(p, k);
    LastAtEnd(p);
    var q := Put16(p, body + 8, |rr.rdata| + |more|) + more;
    PutElsewhere(p, body + 8, |rr.rdata| + |more|, more);
    AvoidedSame(p, q, {body + 8, body + 9});
    ExtraNameSame(p, q, k);
    ExtraFields(p, k);
    GrownFixed(p, q, body, rr.rdata, more);
    RecordRead(q, at, rr.name, body);
    SameBytesFewer(p, q, 0, body + 8, 0, at);
    ExtraEdited(p, q, k, rr.(rdata := rr.rdata + more));
  }

  lemma {:induction false} GrownFixed(p: Bytes, q: Bytes, body: nat, data: Bytes, more: Bytes)
    requires HEADER_SIZE <= body && body + 10 + |data| == |p| && p[body + 10..body + 10 + |data|] == data
    requires |data| + |more| < 0x1_0000 && q == Put16(p, body + 8, |data| + |more|) + more
    ensures |q| == |p| + |more| && U16(q, 10) == U16(p, 10)
    ensures U16(q, body) == U16(p, body) && U16(q, body + 2) == U16(p, body + 2) && U32(q, body + 4) == U32(p, body + 4)
    ensures U16(q, body + 8) == |data| + |more| && q[body + 10..body + 10 + U16(q, body + 8)] == data + more
  {
    assert q[body + 10..|q|] == p[body + 10..body + 10 + |data|] + more;
  }

  /** One more record at the packet's end, counted in the header. */
  lemma {:induction false} RecordAppended(p: Bytes, q: Bytes, rr: Record)
    requires Unpack(p).Ok? && NamesAvoid(p, {10, 11}) && SameBytes(p, q, 0, 10) && SameBytes(p, q, HEADER_SIZE, |p|)
    requires U16(q, 10) == |Unpack(p).value.additionals| + 1 && RecordAt(q, |p|) == Ok((rr, |q|))
    ensures var m := Unpack(p).value;
            Unpack(q) == Ok(m.(additionals := m.additionals + [rr]))
  {
    hide Unpack, NamesAvoid, NamesSame, RecordAt, Section, SameBytes, OwnersSame, U16;
    var n := |Unpack(p).value.additionals|;
    var o := Accepted(p);
    OnlyCountDiffers(p, q);
    AvoidedSame(p, q, {10, 11});
    AdditionalOwnersSame(p, q);
    SameBytesFewer(p, q, HEADER_SIZE, |p|, o, |p|);
    SectionFramed(p, q, o, n);
    SectionOne(q, |p|);
    SectionJoin(q, o, n, 1);
    SameBytesFewer(p, q, HEADER_SIZE, |p|, HEADER_SIZE, o);
    UnpackFrom(p, q, Unpack(p).value.additionals + [rr]);
  }

  lemma {:induction false} OnlyCountDiffers(p: Bytes, q: Bytes)
    requires SameBytes(p, q, 0, 10) && SameBytes(p, q, HEADER_SIZE, |p|)
    ensures |p| <= |q| && forall i: nat :: i < |p| && i !in {10, 11} ==> q[i] == p[i]
  {
  }

  // ---------------------------------------------------------------- the layout of an accepted packet

  /** The record stands at the span. */
  predicate ReadsAs(p: Bytes, s: Span, rr: Record) {
    && RecordAt(p, s.start) == Ok((rr, s.end))
    && DecodeName(p, s.start).Ok? && DecodeName(p, s.start).value.next == s.body
  }

  lemma {:induction false} RecordStands(p: Bytes, o: nat) returns (s: Span)
    requires RecordAt(p, o).Ok?
    ensures Stands(p, s) && s.start == o && s.end == RecordAt(p, o).value.1 && ReadsAs(p, s, RecordAt(p, o).value.0)
    ensures IsOpt(p, s) <==> RecordAt(p, o).value.0.rrType.OPT?
  {
    hide Decode, FromU16, StepAt;
    RecordStep(p, o);
    s := StepAt(p, o).value;
    OptCode(U16(p, s.body));
  }

  lemma {:induction false} SectionSpans(p: Bytes, o: nat, n: nat) returns (list: seq<Span>)
    requires |p| > 0 && Section(p, o, n).Ok?
    ensures |list| == n && Walks(p, o, list, Section(p, o, n).value.1)
    ensures forall i :: 0 <= i < n ==>
              && ReadsAs(p, list[i], Section(p, o, n).value.0[i])
              && (IsOpt(p, list[i]) <==> Section(p, o, n).value.0[i].rrType.OPT?)
    decreases n
  {
    hide Walks, Stands, RecordAt, ReadsAs, IsOpt;
    if n == 0 {
      WalksNil(p, o);
      list := [];
    } else {
      var next := RecordAt(p, o).value.1;
      var s := RecordStands(p, o);
      var rest := SectionSpans(p, next, n - 1);
      WalksCons(p, s, rest, Section(p, o, n).value.1);
      list := [s] + rest;
      assert Section(p, o, n).value.0 == [RecordAt(p, o).value.0] + Section(p, next, n - 1).value.0;
    }
  }

  lemma {:induction false} WalksOnce(p: Bytes, o: nat, a: seq<Span>, x: nat, b: seq<Span>, y: nat)
    requires Walks(p, o, a, x) && Walks(p, o, b, y) && |a| == |b|
    ensures x == y
  {
    hide Traverse;
  }

  lemma {:induction false} SpanStart(p: Bytes, o: nat, list: seq<Span>, end: nat, k: nat)
    requires Walks(p, o, list, end) && k < |list| && Section(p, o, k).Ok?
    ensures list[k].start == Section(p, o, k).value.1
  {
    hide Walks, Stands, Section;
    WalksNonempty(p, o, list, end);
    WalksAt(p, o, list, end, k);
    var before := SectionSpans(p, o, k);
    WalksOnce(p, o, before, Section(p, o, k).value.1, list[..k], list[k].start);
  }

  /** The layout's additional records are the message's. */
  ghost predicate ShapeOf(p: Bytes, l: Shape)
    requires Unpack(p).Ok?
  {
    && |l.extra| == |Unpack(p).value.additionals|
    && forall i :: 0 <= i < |l.extra| ==> ExtraShape(p, l, i)
  }

  ghost predicate ExtraShape(p: Bytes, l: Shape, i: nat)
    requires Unpack(p).Ok? && i < |l.extra| == |Unpack(p).value.additionals|
  {
    && l.extra[i].start == ExtraStart(p, i) && l.extra[i].body == ExtraBody(p, i)
    && (IsOpt(p, l.extra[i]) <==> Unpack(p).value.additionals[i].rrType.OPT?)
  }

  lemma {:induction false} AcceptedMain(p: Bytes) returns (main: seq<Span>)
    requires Unpack(p).Ok? && |Unpack(p).value.questions| == 1
    ensures var (o1, o2, o3) := Bounds(p);
            && |p| > HEADER_SIZE && U16(p, 4) == 1 && HEADER_SIZE + 4 < o1 <= |p|
            && SkipName(p, HEADER_SIZE) == Ok(o1 - 4)
            && |main| == U16(p, 6) as int + U16(p, 8) as int && Walks(p, o1, main, o3)
  {
    hide Section, Questions, HeaderFromBits, QuestionAt, SkipName, Walks, ReadsAs, IsOpt;
    var (o1, o2, o3) := Bounds(p);
    var o := Accepted(p);
    OneQuestion(p);
    QuestionStep(p);
    var answers := SectionSpans(p, o1, U16(p, 6));
    var authorities := SectionSpans(p, o2, U16(p, 8));
    WalksJoin(p, o1, answers, o2, authorities, o3);
    main := answers + authorities;
  }

  /** An accepted packet with one question is laid out. */
  lemma {:induction false} AcceptedLaid(p: Bytes) returns (l: Shape)
    requires Unpack(p).Ok? && |Unpack(p).value.questions| == 1
    ensures Laid(p, l) && ShapeOf(p, l)
  {
    hide Unpack, Bounds, Section, SkipName, Walks, Laid, U16, ReadsAs, IsOpt, ExtraShape;
    var main := AcceptedMain(p);
    var o := Accepted(p);
    var extra := SectionSpans(p, o, U16(p, 10));
    l := Shape(Bounds(p).0, main, o, extra);
    LaidIntro(p, l);
    forall i | 0 <= i < |extra|
      ensures ExtraShape(p, l, i)
    {
      ExtraShapeIs(p, l, i);
    }
  }

  lemma {:induction false} ExtraShapeIs(p: Bytes, l: Shape, i: nat)
    requires Unpack(p).Ok? && i < |l.extra| == |Unpack(p).value.additionals|
    requires Walks(p, Bounds(p).2, l.extra, |p|) && ReadsAs(p, l.extra[i], Unpack(p).value.additionals[i])
    requires IsOpt(p, l.extra[i]) <==> Unpack(p).value.additionals[i].rrType.OPT?
    ensures ExtraShape(p, l, i)
  {
    hide Unpack, Bounds, Section, Walks, RecordAt, DecodeName, IsOpt;
    ExtraAt(p, i);
    SpanStart(p, Bounds(p).2, l.extra, |p|, i);
  }

  // ---------------------------------------------------------------- the editors, on messages

  ghost predicate OnlyOptAt(rrs: seq<Record>, k: nat) {
    k < |rrs| && forall i :: 0 <= i < |rrs| ==> (rrs[i].rrType.OPT? <==> i == k)
  }

  ghost predicate NoneOpt(rrs: seq<Record>) {
    forall i :: 0 <= i < |rrs| ==> !rrs[i].rrType.OPT?
  }

  lemma {:induction false} ExtraAgrees(p: Bytes, l: Shape, k: nat)
    requires Unpack(p).Ok? && ShapeOf(p, l) && k < |Unpack(p).value.additionals|
    ensures k < |l.extra| && l.extra[k].start == ExtraStart(p, k) && l.extra[k].body == ExtraBody(p, k)
    ensures IsOpt(p, l.extra[k]) <==> Unpack(p).value.additionals[k].rrType.OPT?
  {
    hide Unpack, ExtraStart, ExtraBody, IsOpt;
    assert ExtraShape(p, l, k);
  }

  /** The layout has its OPT records where the message has them. */
  lemma {:induction false} OnlyAgrees(p: Bytes, l: Shape, k: nat)
    requires Unpack(p).Ok? && ShapeOf(p, l) && OnlyOptAt(Unpack(p).value.additionals, k)
    ensures OnlyOpt(p, l.extra, k) && |l.extra| == |Unpack(p).value.additionals|
    ensures l.extra[k].start == ExtraStart(p, k) && l.extra[k].body == ExtraBody(p, k)
  {
    hide Unpack, ExtraStart, ExtraBody, IsOpt, ExtraShape;
    forall i | 0 <= i < |l.extra|
      ensures IsOpt(p, l.extra[i]) <==> i == k
    {
      ExtraAgrees(p, l, i);
    }
    ExtraAgrees(p, l, k);
  }

  lemma {:induction false} NoneAgrees(p: Bytes, l: Shape)
    requires Unpack(p).Ok? && ShapeOf(p, l) && NoneOpt(Unpack(p).value.additionals)
    ensures NoOpt(p, l.extra) && |l.extra| == |Unpack(p).value.additionals|
  {
    hide Unpack, IsOpt, ExtraShape;
    forall i | 0 <= i < |l.extra|
      ensures !IsOpt(p, l.extra[i])
    {
      ExtraAgrees(p, l, i);
    }
  }

  /** A root-owned OPT that reaches to the packet's end. */
  lemma {:induction false} OptRead(q: Bytes, n: nat, size: uint16, data: Bytes)
    requires n + 11 + |data| == |q| && |data| < 0x1_0000 && q[n] == 0 && U16(q, n + 1) == TYPE_OPT
    requires U16(q, n + 3) == size && U32(q, n + 5) == 0 && U16(q, n + 9) == |data| && q[n + 11..] == data
    ensures RecordAt(q, n) == Ok((Record([], OPT, size, 0, data), |q|))
  {
    hide U16, U32, FromU16;
    assert DecodeName(q, n) == Ok(Decoded([], n + 1));
    RecordRead(q, n, [], n + 1);
    OptCode(TYPE_OPT);
    assert q[n + 11..|q|] == data;
  }

  lemma {:induction false} OptFields(q: Bytes, n: nat, size: uint16)
    requires At(q, n, OptRecord(size))
    ensures n + 11 <= |q| && q[n] == 0 && U16(q, n + 1) == TYPE_OPT
    ensures U16(q, n + 3) == size && U32(q, n + 5) == 0 && U16(q, n + 9) == 0
  {
    var r := OptRecord(size);
    assert r == [0, 0, 41, size / 256, size % 256, 0, 0, 0, 0, 0, 0];
    assert forall i :: 0 <= i < 11 ==> q[n + i] == q[n..n + 11][i] == r[i];
    assert q[n] == 0 && q[n + 1] == 0 && q[n + 2] == 41 && q[n + 3] == size / 256 && q[n + 4] == size % 256;
    assert q[n + 5] == 0 && q[n + 6] == 0 && q[n + 7] == 0 && q[n + 8] == 0 && q[n + 9] == 0 && q[n + 10] == 0;
  }

  /**
    Setting the payload size of an accepted packet with one OPT, wherever it stands: the packet left
    unpacks to the message with that OPT's class set, provided no name reads the class field.
   */
  lemma {:induction false} SetEdnsSetsClass(p: Bytes, k: nat, size: uint16)
    requires Unpack(p).Ok? && |Unpack(p).value.questions| == 1 && |p| <= MAX_PACKET
    requires OnlyOptAt(Unpack(p).value.additionals, k)
    requires NamesAvoid(p, {ExtraBody(p, k) + 2, ExtraBody(p, k) + 3})
    ensures var m := Unpack(p).value;
            && SetEdns(p, size).out.Ok?
            && Unpack(SetEdns(p, size).bytes)
               == Ok(m.(additionals := m.additionals[k := m.additionals[k].(rrClass := size)]))
  {
    hide Unpack, NamesAvoid, Laid, ShapeOf, ExtraStart, ExtraBody, SetEdns, OnlyOpt, NoOpt;
    var l := AcceptedLaid(p);
    OnlyAgrees(p, l, k);
    SetEdnsUpdates(p, l, k, size);
    ClassWritten(p, k, size);
  }

  /** With no OPT the message gains one, provided no name reads the count field. */
  lemma {:induction false} SetEdnsAddsRecord(p: Bytes, size: uint16)
    requires Unpack(p).Ok? && |Unpack(p).value.questions| == 1 && |p| <= MAX_PACKET - 11
    requires NoneOpt(Unpack(p).value.additionals) && NamesAvoid(p, {10, 11})
    ensures var m := Unpack(p).value;
            && SetEdns(p, size).out.Ok?
            && Unpack(SetEdns(p, size).bytes)
               == Ok(m.(additionals := m.additionals + [Record([], OPT, size, 0, [])]))
  {
    hide Unpack, NamesAvoid, Laid, ShapeOf, SetEdns, AddSection, NoOpt, OptRecord, Put16, SameBytes;
    var l := AcceptedLaid(p);
    NoneAgrees(p, l);
    LaidFacts(p, l);
    SetEdnsAdds(p, l, size);
    AddSectionLaid(p, l, size);
    var q := AddSection(p, size).bytes;
    var n := |l.extra| + 1;
    var o := Accepted(p);
    CountAndTail(p, n, OptRecord(size));
    OptFields(q, |p|, size);
    assert q[|p| + 11..] == [];
    OptRead(q, |p|, size, []);
    RecordAppended(p, q, Record([], OPT, size, 0, []));
  }

  /** The count written and bytes appended: all else is kept. */
  lemma {:induction false} CountAndTail(p: Bytes, n: uint16, b: Bytes)
    requires |p| > HEADER_SIZE
    ensures var q := Put16(p, 10, n) + b;
            && U16(q, 10) == n && |q| == |p| + |b| && At(q, |p|, b)
            && SameBytes(p, q, 0, 10) && SameBytes(p, q, HEADER_SIZE, |p|)
  {
  }

  /** The option appended by the padding editor, and by the subnet editor. */
  lemma {:induction false} OneOptionBehind(data: Bytes, code: uint16, more: Bytes)
    requires OptionsAt(data, 0, |data|).Some? && |more| < 0x1_0000
    ensures var grown := data + (Be16(code) + Be16(|more|) + more);
            OptionsAt(grown, 0, |grown|) == Some(OptionsAt(data, 0, |data|).value + [EdnsOption(code, more)])
  {
    hide OptionsAt, Be16;
    var option := Be16(code) + Be16(|more|) + more;
    var grown := data + option;
    assert data[0..|data|] == data && grown[0..|data|] == data && grown[|data|..|data| + |option|] == option;
    OptionsExtended(data, 0, |data|, grown, 0, code, more);
  }

  function Filler(n: uint16): (b: Bytes)
    ensures |b| == n
  {
    seq(n, _ => FILLER)
  }

  /**
    Padding an accepted packet of at most 4080 bytes whose one OPT is its last record: the packet left
    unpacks to the message with one option 12 more in that OPT, provided no name reads its length field.
   */
  lemma {:induction false} PaddingAddsOption(p: Bytes, k: nat)
    requires Unpack(p).Ok? && |Unpack(p).value.questions| == 1 && |p| <= 4080
    requires OnlyOptAt(Unpack(p).value.additionals, k) && k + 1 == |Unpack(p).value.additionals|
    requires NamesAvoid(p, {ExtraBody(p, k) + 8, ExtraBody(p, k) + 9})
    ensures |p| <= PaddedLen(|p|) <= 4080
    ensures var m := Unpack(p).value;
            var rr := m.additionals[k];
            var grown := rr.(rdata := rr.rdata + PaddingOption(PaddedLen(|p|) - |p|));
            && AddPadding(p).out.Ok? && Unpack(AddPadding(p).bytes) == Ok(m.(additionals := m.additionals[k := grown]))
            && (OptionsAt(rr.rdata, 0, |rr.rdata|).Some? ==>
                  OptionsAt(grown.rdata, 0, |grown.rdata|)
                  == Some(OptionsAt(rr.rdata, 0, |rr.rdata|).value
                          + [EdnsOption(OPTION_PADDING, Filler(PaddedLen(|p|) - |p|))]))
  {
    hide Unpack, NamesAvoid, Laid, ShapeOf, ExtraStart, ExtraBody, AddPadding, OnlyOpt, NoOpt, PaddedLen, OptionsAt,
      Put16, U16;
    PaddedLenBounds(|p|);
    var rr := Unpack(p).value.additionals[k];
    var padding := PaddedLen(|p|) - |p|;
    var l := AcceptedLaid(p);
    OnlyAgrees(p, l, k);
    PaddingFindsOpt(p, l, k);
    PaddingExact(p, l, k);
    ExtraFields(p, k);
    DataAppended(p, k, rr, ExtraBody(p, k), PaddingOption(padding));
    if OptionsAt(rr.rdata, 0, |rr.rdata|).Some? {
      OneOptionBehind(rr.rdata, OPTION_PADDING, Filler(padding));
    }
  }

  /** With no OPT the message gains one that holds the padding alone, provided no name reads the count field. */
  lemma {:induction false} PaddingAddsRecord(p: Bytes)
    requires Unpack(p).Ok? && |Unpack(p).value.questions| == 1 && |p| + 11 <= 4080
    requires NoneOpt(Unpack(p).value.additionals) && NamesAvoid(p, {10, 11})
    ensures |p| + 11 <= PaddedLen(|p| + 11) <= 4080
    ensures var m := Unpack(p).value;
            var padding := PaddingOption(PaddedLen(|p| + 11) - |p| - 11);
            && AddPadding(p).out.Ok?
            && Unpack(AddPadding(p).bytes)
               == Ok(m.(additionals := m.additionals + [Record([], OPT, MAX_PACKET, 0, padding)]))
  {
    hide Unpack, NamesAvoid, Laid, ShapeOf, AddPadding, NoOpt, SameBytes, PaddedLen, PaddingOption, RecordAt, U16;
    var l := AcceptedLaid(p);
    NoneAgrees(p, l);
    var q, padding := PaddedOpt(p, l);
    var o := Accepted(p);
    RecordAppended(p, q, Record([], OPT, MAX_PACKET, 0, PaddingOption(padding)));
  }

  /** The bytes padding leaves when it has to add the OPT: that record, padded, behind the packet. */
  lemma {:induction false} PaddedOpt(p: Bytes, l: Shape) returns (q: Bytes, padding: uint16)
    requires Laid(p, l) && NoOpt(p, l.extra) && |p| + 11 <= 4080
    ensures |p| + 11 + padding == PaddedLen(|p| + 11) <= 4080
    ensures AddPadding(p) == Edited(q, Ok(())) && SameBytes(p, q, 0, 10) && SameBytes(p, q, HEADER_SIZE, |p|)
    ensures |q| >= HEADER_SIZE && U16(q, 10) == |l.extra| + 1
    ensures RecordAt(q, |p|) == Ok((Record([], OPT, MAX_PACKET, 0, PaddingOption(padding)), |q|))
  {
    hide Laid, AddPadding, PadAt, AddSection, NoOpt, OptRecord, Put16, SameBytes, PaddedLen, PaddingOption, U16, U32,
      RecordAt;
    PaddedLenBounds(|p| + 11);
    padding := PaddedLen(|p| + 11) - |p| - 11;
    var more := PaddingOption(padding);
    LaidFacts(p, l);
    PaddingAddsOpt(p, l);
    AddSectionLaid(p, l, MAX_PACKET);
    var p1 := Put16(p, 10, |l.extra| + 1) + OptRecord(MAX_PACKET);
    CountAndTail(p, |l.extra| + 1, OptRecord(MAX_PACKET));
    OptFields(p1, |p|, MAX_PACKET);
    q := Put16(p1, |p| + 9, |more|) + more;
    PadEmpty(p1, |p| + 1);
    GrownOpt(p, p1, q, more);
    OptRead(q, |p|, MAX_PACKET, more);
  }

  lemma {:induction false} PadEmpty(p: Bytes, body: nat)
    requires |p| <= 4080 && body + 10 == |p| && U16(p, body + 8) == 0
    ensures |p| <= PaddedLen(|p|) <= 4080
    ensures var more := PaddingOption(PaddedLen(|p|) - |p|);
            PadAt(p, body) == Edited(Put16(p, body + 8, |more|) + more, Ok(()))
  {
    hide PaddedLen, PaddingOption, Put16, U16;
    PaddedLenBounds(|p|);
  }

  lemma {:induction false} GrownOpt(p: Bytes, p1: Bytes, q: Bytes, more: Bytes)
    requires HEADER_SIZE <= |p| && |p1| == |p| + 11 && |more| < 0x1_0000 && q == Put16(p1, |p| + 9, |more|) + more
    requires SameBytes(p, p1, 0, 10) && SameBytes(p, p1, HEADER_SIZE, |p|)
    ensures |q| == |p| + 11 + |more| && SameBytes(p, q, 0, 10) && SameBytes(p, q, HEADER_SIZE, |p|)
    ensures U16(q, 10) == U16(p1, 10) && q[|p|] == p1[|p|] && U16(q, |p| + 1) == U16(p1, |p| + 1)
    ensures U16(q, |p| + 3) == U16(p1, |p| + 3) && U32(q, |p| + 5) == U32(p1, |p| + 5)
    ensures U16(q, |p| + 9) == |more| && q[|p| + 11..] == more
  {
  }

  /**
    Inserting the subnet into an accepted packet whose one OPT is its last record, is owned by the root
    octet and has well-formed options none of which is 8: the packet left unpacks to the message with
    one option 8 more in that OPT, provided no name reads its length field.
   */
  lemma {:induction false} EcsAddsOption(p: Bytes, k: nat, ip: IpAddr, prefix4: byte, prefix6: byte)
    requires Unpack(p).Ok? && |Unpack(p).value.questions| == 1 && |p| <= MAX_PACKET
    requires OnlyOptAt(Unpack(p).value.additionals, k) && k + 1 == |Unpack(p).value.additionals|
    requires ExtraStart(p, k) < |p| && p[ExtraStart(p, k)] == 0
    requires OptionsAt(p, ExtraBody(p, k) + 10, |p|).Some? && !HasSubnet(OptionsAt(p, ExtraBody(p, k) + 10, |p|).value)
    requires NamesAvoid(p, {ExtraBody(p, k) + 8, ExtraBody(p, k) + 9})
    ensures var m := Unpack(p).value;
            var rr := m.additionals[k];
            && AddEcs(p, ip, prefix4, prefix6).outcome == Done
            && Unpack(AddEcs(p, ip, prefix4, prefix6).bytes)
               == Ok(m.(additionals :=
                       m.additionals[k := rr.(rdata := rr.rdata + EcsOption(ip, prefix4, prefix6))]))
  {
    hide Unpack, NamesAvoid, Laid, ShapeOf, ExtraStart, ExtraBody, NoOpt, OptionsAt, Put16, AddEcs, EcsOption,
      HasSubnet, IsOpt, DecodeName, FromU16, U16;
    var rr := Unpack(p).value.additionals[k];
    var l := AcceptedLaid(p);
    OnlyAgrees(p, l, k);
    EcsLast(p, l, k, ip, prefix4, prefix6);
    ExtraFields(p, k);
    DataAppended(p, k, rr, ExtraBody(p, k), EcsOption(ip, prefix4, prefix6));
  }

  /** The bytes of an insertion into a root-owned OPT that is the last record. */
  lemma {:induction false} EcsLast(p: Bytes, l: Shape, k: nat, ip: IpAddr, prefix4: byte, prefix6: byte)
    requires Laid(p, l) && |p| <= MAX_PACKET && OnlyOpt(p, l.extra, k) && k + 1 == |l.extra|
    requires l.extra[k].start < |p| && p[l.extra[k].start] == 0
    requires OptionsAt(p, l.extra[k].body + 10, |p|).Some?
    requires !HasSubnet(OptionsAt(p, l.extra[k].body + 10, |p|).value)
    ensures var body, option := l.extra[k].body, EcsOption(ip, prefix4, prefix6);
            && body + 10 + U16(p, body + 8) == |p| && U16(p, body + 8) + |option| < 0x1_0000
            && AddEcs(p, ip, prefix4, prefix6)
               == EcsEdit(Put16(p, body + 8, U16(p, body + 8) + |option|) + option, Done)
  {
    hide Laid, OptionsAt, Put16, AddEcs, Spliced, EcsOption, HasSubnet, IsOpt, U16;
    ExtraIn(p, l, k);
    LastEnds(p, l);
    RootOwned(p, l.extra[k]);
    InsertionIs(p, l, k, ip, prefix4, prefix6);
    SplicedLast(p, l.extra[k].start, EcsOption(ip, prefix4, prefix6));
  }

  lemma {:induction false} SplicedLast(p: Bytes, start: nat, option: Bytes)
    requires start + 11 <= |p| && start + 11 + U16(p, start + 9) == |p| && U16(p, start + 9) + |option| < 0x1_0000
    ensures Spliced(p, start, option) == Put16(p, start + 9, U16(p, start + 9) + |option|) + option
  {
    hide U16, Put16;
    var q := Put16(p, start + 9, U16(p, start + 9) + |option|);
    assert q[..|p|] == q && q[|p|..] == [];
  }

  // ---------------------------------------------------------------- a reply padding breaks

  lemma {:induction false} OptFirstPadded()
    ensures AddPadding(OPT_FIRST) == Edited(Put16(OPT_FIRST, 26, 29) + PaddingOption(25), Ok(()))
  {
    hide OPT_FIRST, AddPadding, PaddingOption, Put16, U16;
    OptFirstLaid();
    OptFirstRecords();
    PaddingFindsOpt(OPT_FIRST, OPT_FIRST_SHAPE, 0);
    assert PaddedLen(39) == 64;
  }

  lemma {:induction false} KeptByPadding(p: Bytes, q: Bytes)
    requires |p| == 39 && q == Put16(p, 26, 29) + PaddingOption(25)
    ensures |q| == 68 && q[12] == p[12] && q[17] == p[17] && U16(q, 26) == 29 && q[57] == FILLER
    ensures U16(q, 4) == U16(p, 4) && U16(q, 6) == U16(p, 6) && U16(q, 8) == U16(p, 8) && U16(q, 10) == U16(p, 10)
  {
    var option := PaddingOption(25);
    assert option[18] == FILLER;
  }

  lemma {:induction false} RootQuestion(p: Bytes)
    requires |p| > 17 && p[12] == 0 && U16(p, 4) == 1 && U16(p, 6) == 0 && U16(p, 8) == 0
    ensures Questions(p, HEADER_SIZE, U16(p, 4)).Ok? && Questions(p, HEADER_SIZE, U16(p, 4)).value.1 == 17
    ensures Section(p, 17, U16(p, 6)) == Ok(([], 17)) && Section(p, 17, U16(p, 8)) == Ok(([], 17))
  {
    hide U16, FromU16;
    assert DecodeName(p, 12) == Ok(Decoded([], 13));
    assert Questions(p, 17, 0) == Ok(([], 17));
  }

  /** The reply unpacks, padding it succeeds, and what is left does not unpack. */
  lemma {:induction false} PaddingBreaksReply()
    ensures Unpack(OPT_FIRST).Ok? && AddPadding(OPT_FIRST).out.Ok?
    ensures Unpack(AddPadding(OPT_FIRST).bytes) == Err(InvalidLabelLength)
  {
    hide OPT_FIRST, AddPadding, PaddingOption, Put16, U16, U32, FromU16, Questions, HeaderFromBits, BOUNDARIES;
    var p := OPT_FIRST;
    OptFirstHeader();
    OptFirstRecords();
    RootQuestion(p);
    assert DecodeName(p, 17) == Ok(Decoded([], 18)) && DecodeName(p, 28) == Ok(Decoded([], 29));
    RecordRead(p, 17, [], 18);
    RecordRead(p, 28, [], 29);
    OptFirstPadded();
    var q := AddPadding(p).bytes;
    KeptByPadding(p, q);
    RootQuestion(q);
    assert DecodeName(q, 17) == Ok(Decoded([], 18)) && DecodeName(q, 57) == Err(InvalidLabelLength);
    RecordRead(q, 17, [], 18);
    hide RecordAt, DecodeName;
    TwoRecords(p, q);
  }

  lemma {:induction false} TwoRecords(p: Bytes, q: Bytes)
    requires RecordAt(p, 17).Ok? && RecordAt(p, 17).value.1 == 28
    requires RecordAt(p, 28).Ok? && RecordAt(p, 28).value.1 == 39
    requires RecordAt(q, 17).Ok? && RecordAt(q, 17).value.1 == 57 && DecodeName(q, 57) == Err(InvalidLabelLength)
    ensures Section(p, 17, 2).Ok? && Section(p, 17, 2).value.1 == 39 && Section(q, 17, 2) == Err(InvalidLabelLength)
  {
    assert RecordAt(q, 57) == Err(InvalidLabelLength);
    hide RecordAt, DecodeName;
    SectionEmpty(p, 39);
    SectionOne(p, 28);
    assert Section(q, 57, 1) == Err(InvalidLabelLength);
  }
}
