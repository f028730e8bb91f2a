/** Which bytes a name walk depends on. */
module NameFrames {
  import opened Wire
  import opened Names

  /** Skipping looks only at the bytes from its offset on, even when it fails. */
  lemma {:induction false} SkipSuffix(p: Bytes, q: Bytes, o: nat)
    requires |p| == |q| && o <= |p| && p[o..] == q[o..]
    ensures Skip(p, o) == Skip(q, o)
    decreases |p| - o
  {
    if o < |p| {
      assert p[o] == p[o..][0] == q[o..][0] == q[o];
      var end := o + 1 + p[o] as int;
      if end <= |p| {
        assert p[end..] == p[o..][end - o..];
        assert q[end..] == q[o..][end - o..];
        if 0 < p[o] < 0x40 {
          SkipSuffix(p, q, end);
        }
      }
    }
  }

  /** A skipped name read at the same bytes elsewhere is skipped the same way. */
  lemma {:induction false} SkipLocal(p: Bytes, o: nat, q: Bytes, o': nat)
    requires Skip(p, o).Ok?
    requires At(q, o', p[o..Skip(p, o).value])
    ensures Skip(q, o') == Ok(o' + (Skip(p, o).value - o))
    decreases |p| - o
  {
    hide At;
    var n := Skip(p, o).value;
    var part := p[o..n];
    AtSlice(q, o', part);
    assert q[o'] == q[o'..o' + |part|][0] == part[0] == p[o];
    if 0 < p[o] < 0x40 {
      var step := 1 + p[o] as int;
      assert part == p[o..o + step] + p[o + step..n];
      AtParts(q, o', p[o..o + step], p[o + step..n]);
      SkipLocal(p, o + step, q, o' + step);
    }
  }

  /** Whether a successful decoder reads position `i`: as a length, a pointer or a label octet. */
  predicate DecodeReads(p: Bytes, cur: nat, ptrs: nat, wlen: nat, i: nat)
    requires ptrs <= MAX_POINTERS && Decode(p, cur, ptrs, wlen).Ok?
    decreases MAX_POINTERS - ptrs, |p| - cur
  {
    if p[cur] >= 0xC0 then
      cur <= i <= cur + 1 || DecodeReads(p, PointerTarget(p, cur), ptrs + 1, wlen, i)
    else if p[cur] == 0 then
      i == cur
    else
      var end := cur + 1 + p[cur] as int;
      cur <= i < end || DecodeReads(p, end, ptrs, wlen + 1 + p[cur] as int, i)
  }

  /** One iteration reads its own octets, and whatever the next one reads is read. */
  lemma {:induction false} HereRead(p: Bytes, cur: nat, ptrs: nat, wlen: nat)
    requires ptrs <= MAX_POINTERS && Decode(p, cur, ptrs, wlen).Ok?
    ensures DecodeReads(p, cur, ptrs, wlen, cur)
    ensures p[cur] >= 0xC0 ==>
              && DecodeReads(p, cur, ptrs, wlen, cur + 1)
              && forall i: nat :: DecodeReads(p, PointerTarget(p, cur), ptrs + 1, wlen, i) ==>
                  DecodeReads(p, cur, ptrs, wlen, i)
    ensures 0 < p[cur] < 0x40 ==>
              var end := cur + 1 + p[cur] as int;
              && (forall i :: cur <= i < end ==> DecodeReads(p, cur, ptrs, wlen, i))
              && forall i: nat ::
                   DecodeReads(p, end, ptrs, wlen + 1 + p[cur] as int, i) ==> DecodeReads(p, cur, ptrs, wlen, i)
  {
  }

  /** What one iteration of a successful decoder finds, and what it leaves to the next one. */
  lemma {:induction false} DecodeGoesOn(p: Bytes, cur: nat, ptrs: nat, wlen: nat)
    requires ptrs <= MAX_POINTERS && Decode(p, cur, ptrs, wlen).Ok?
    ensures cur < |p| && (p[cur] < 0x40 || p[cur] >= 0xC0)
    ensures p[cur] >= 0xC0 ==> cur + 1 < |p| && ptrs < MAX_POINTERS && PointerTarget(p, cur) < |p|
                               && Decode(p, PointerTarget(p, cur), ptrs + 1, wlen).Ok?
    ensures 0 < p[cur] < 0x40 ==>
              var end := cur + 1 + p[cur] as int;
              end <= |p| && Decode(p, end, ptrs, wlen + 1 + p[cur] as int).Ok?
  {
  }

  /** One iteration at the same bytes, the next one having the same result. */
  lemma {:induction false} DecodeFramePointer(p: Bytes, q: Bytes, cur: nat, ptrs: nat, wlen: nat)
    requires |p| <= |q| && ptrs < MAX_POINTERS && Decode(p, cur, ptrs, wlen).Ok?
    requires cur + 1 < |p| && p[cur] >= 0xC0 && q[cur] == p[cur] && q[cur + 1] == p[cur + 1]
    requires Decode(q, PointerTarget(p, cur), ptrs + 1, wlen) == Decode(p, PointerTarget(p, cur), ptrs + 1, wlen)
    ensures Decode(q, cur, ptrs, wlen) == Decode(p, cur, ptrs, wlen)
  {
  }

  lemma {:induction false} DecodeFrameLabel(p: Bytes, q: Bytes, cur: nat, end: nat, ptrs: nat, wlen: nat)
    requires |p| <= |q| && ptrs <= MAX_POINTERS && Decode(p, cur, ptrs, wlen).Ok?
    requires cur < |p| && p[cur] < 0x40 && q[cur] == p[cur] && end == cur + 1 + p[cur] as int <= |p|
    requires p[cur] > 0 ==>
               q[cur + 1..end] == p[cur + 1..end]
               && Decode(q, end, ptrs, wlen + end - cur) == Decode(p, end, ptrs, wlen + end - cur)
    ensures Decode(q, cur, ptrs, wlen) == Decode(p, cur, ptrs, wlen)
  {
  }

  /** Bytes a decoder does not read do not matter to it, nor do bytes behind the packet. */
  lemma {:induction false} DecodeFrame(p: Bytes, q: Bytes, cur: nat, ptrs: nat, wlen: nat)
    requires |p| <= |q| && ptrs <= MAX_POINTERS && Decode(p, cur, ptrs, wlen).Ok?
    requires forall i: nat :: i < |p| && DecodeReads(p, cur, ptrs, wlen, i) ==> q[i] == p[i]
    ensures Decode(q, cur, ptrs, wlen) == Decode(p, cur, ptrs, wlen)
    decreases MAX_POINTERS - ptrs, |p| - cur
  {
    hide Decode, DecodeReads, PointerTarget;
    DecodeGoesOn(p, cur, ptrs, wlen);
    HereRead(p, cur, ptrs, wlen);
    if p[cur] >= 0xC0 {
      DecodeFrame(p, q, PointerTarget(p, cur), ptrs + 1, wlen);
      DecodeFramePointer(p, q, cur, ptrs, wlen);
    } else {
      var end := cur + 1 + p[cur] as int;
      if p[cur] > 0 {
        assert q[cur + 1..end] == p[cur + 1..end];
        DecodeFrame(p, q, end, ptrs, wlen + 1 + p[cur] as int);
      }
      DecodeFrameLabel(p, q, cur, end, ptrs, wlen);
    }
  }
}
