/**
  The five name walkers agree wherever the message decoder accepts a name.

  Two of them count pointer jumps against the packet length and one does not count at all, so
  their agreement rests on a pigeonhole argument: a walk that stops never stands on the same
  position twice, hence it makes at most as many moves as the packet has bytes.
 */
module NameAgreement {
  import opened Wire
  import opened Names

  // ---------------------------------------------------------------- the unbounded walk

  /** The position after one move of the JSON parser's loop, when it moves on. */
  function Move(p: Bytes, o: nat): (next: Option<nat>) {
    if o >= |p| then None
    else if p[o] >= 0xC0 then if o + 1 < |p| then Some(PointerTarget(p, o)) else None
    else if p[o] == 0 || o + 1 + p[o] as int > |p| then None
    else Some(o + 1 + p[o] as int)
  }

  /** The loop started at `o` stops in its `n`-th iteration and not before. */
  predicate StopsIn(p: Bytes, o: nat, n: nat)
    decreases n
  {
    n > 0 && match Move(p, o)
             case None => n == 1
             case Some(o') => StopsIn(p, o', n - 1)
  }

  lemma {:induction false} StopsInUnique(p: Bytes, o: nat, m: nat, n: nat)
    requires StopsIn(p, o, m) && StopsIn(p, o, n)
    ensures m == n
    decreases n
  {
    if Move(p, o).Some? {
      StopsInUnique(p, Move(p, o).value, m - 1, n - 1);
    }
  }

  /** Positions the walk leaves behind, for a walk that stops in `n` iterations. */
  function Trail(p: Bytes, o: nat, n: nat): (trail: set<nat>)
    requires StopsIn(p, o, n)
    decreases n
  {
    match Move(p, o)
    case None => {}
    case Some(o') => {o} + Trail(p, o', n - 1)
  }

  lemma {:induction false} TrailMember(p: Bytes, o: nat, n: nat, x: nat) returns (k: nat)
    requires StopsIn(p, o, n) && x in Trail(p, o, n)
    ensures k <= n && StopsIn(p, x, k) && x < |p|
    decreases n
  {
    if x == o {
      k := n;
    } else {
      k := TrailMember(p, Move(p, o).value, n - 1, x);
    }
  }

  /** A stopping walk never returns to a position it left. */
  lemma {:induction false} TrailDistinct(p: Bytes, o: nat, n: nat)
    requires StopsIn(p, o, n)
    ensures |Trail(p, o, n)| == n - 1
    decreases n
  {
    if Move(p, o).Some? {
      var o' := Move(p, o).value;
      TrailDistinct(p, o', n - 1);
      if o in Trail(p, o', n - 1) {
        var k := TrailMember(p, o', n - 1, o);
        StopsInUnique(p, o, n, k);
      }
    }
  }

  lemma {:induction false} BoundedSet(s: set<nat>, n: nat)
    requires forall x :: x in s ==> x < n
    ensures |s| <= n
  {
    if n == 0 {
      assert s == {};
    } else {
      BoundedSet(s - {n - 1}, n - 1);
    }
  }

  /** Pigeonhole: whatever the packet holds, a walk that stops makes at most |p| moves. */
  lemma {:induction false} StopsWithinLength(p: Bytes, o: nat, n: nat)
    requires StopsIn(p, o, n)
    ensures n <= |p| + 1
  {
    TrailDistinct(p, o, n);
    forall x | x in Trail(p, o, n)
      ensures x < |p|
    {
      var _ := TrailMember(p, o, n, x);
    }
    BoundedSet(Trail(p, o, n), |p|);
  }

  // ---------------------------------------------------------------- when the JSON parser returns

  lemma {:induction false} JsonStops(p: Bytes, o: nat, steps: nat) returns (n: nat)
    requires JsonFrom(p, o, steps) != OutOfSteps
    ensures n <= steps && StopsIn(p, o, n)
    decreases steps
  {
    if Move(p, o).Some? {
      n := JsonStops(p, Move(p, o).value, steps - 1);
      n := n + 1;
    } else {
      n := 1;
    }
  }

  lemma {:induction false} JsonStopped(p: Bytes, o: nat, n: nat, steps: nat)
    requires StopsIn(p, o, n) && n <= steps
    ensures JsonFrom(p, o, steps) != OutOfSteps
    ensures JsonFrom(p, o, steps) == JsonFrom(p, o, n)
    decreases n
  {
    if Move(p, o).Some? {
      JsonStopped(p, Move(p, o).value, n - 1, steps - 1);
    }
  }

  /**
    The JSON name parser has no jump limit.  It returns if and only if |p| + 1 iterations
    suffice, which is what the method's precondition checks.
   */
  lemma {:induction false} JsonHaltsIffBounded(p: Bytes, o: nat)
    ensures (exists steps: nat :: JsonFrom(p, o, steps) != OutOfSteps) <==> JsonHalts(p, o)
  {
    if steps: nat :| JsonFrom(p, o, steps) != OutOfSteps {
      var n := JsonStops(p, o, steps);
      StopsWithinLength(p, o, n);
      JsonStopped(p, o, n, |p| + 1);
    }
  }

  /** The position after `k` moves, when the walk gets that far. */
  function Position(p: Bytes, o: nat, k: nat): Option<nat>
    decreases k
  {
    if k == 0 then Some(o)
    else
      match Move(p, o)
      case None => None
      case Some(next) => Position(p, next, k - 1)
  }

  /** The walk stands on one position at two different times. */
  ghost predicate Returns(p: Bytes, o: nat) {
    exists i: nat, j: nat :: i < j && Position(p, o, i).Some? && Position(p, o, i) == Position(p, o, j)
  }

  lemma {:induction false} StopsLater(p: Bytes, o: nat, n: nat, k: nat)
    requires StopsIn(p, o, n) && Position(p, o, k).Some?
    ensures k < n && StopsIn(p, Position(p, o, k).value, n - k)
    decreases k
  {
    if k > 0 {
      StopsLater(p, Move(p, o).value, n - 1, k - 1);
    }
  }

  lemma {:induction false} ReturnNeverStops(p: Bytes, o: nat, n: nat)
    requires Returns(p, o)
    ensures !StopsIn(p, o, n)
  {
    if StopsIn(p, o, n) {
      var i: nat, j: nat :| i < j && Position(p, o, i).Some? && Position(p, o, i) == Position(p, o, j);
      StopsLater(p, o, n, i);
      StopsLater(p, o, n, j);
      StopsInUnique(p, Position(p, o, i).value, n - i, n - j);
    }
  }

  /** A walk still moving after `k` moves has stood inside the packet all the while. */
  lemma {:induction false} MovesOn(p: Bytes, o: nat, k: nat)
    requires forall n: nat :: n <= k ==> !StopsIn(p, o, n)
    ensures forall i: nat :: i < k ==> Position(p, o, i).Some? && Position(p, o, i).value < |p|
    decreases k
  {
    if k > 0 {
      assert !StopsIn(p, o, 1);
      var next := Move(p, o).value;
      forall n: nat | n <= k - 1
        ensures !StopsIn(p, next, n)
      {
        assert !StopsIn(p, o, n + 1);
      }
      MovesOn(p, next, k - 1);
      forall i: nat | i < k
        ensures Position(p, o, i).Some? && Position(p, o, i).value < |p|
      {
        if i > 0 {
          assert Position(p, o, i) == Position(p, next, i - 1);
        }
      }
    }
  }

  /** Positions after fewer than `k` moves. */
  function Visited(p: Bytes, o: nat, k: nat): set<nat>
    requires forall i: nat :: i < k ==> Position(p, o, i).Some?
  {
    if k == 0 then {} else Visited(p, o, k - 1) + {Position(p, o, k - 1).value}
  }

  lemma {:induction false} VisitedAt(p: Bytes, o: nat, k: nat, x: nat) returns (i: nat)
    requires (forall i: nat :: i < k ==> Position(p, o, i).Some?) && x in Visited(p, o, k)
    ensures i < k && Position(p, o, i) == Some(x)
  {
    if x == Position(p, o, k - 1).value {
      i := k - 1;
    } else {
      i := VisitedAt(p, o, k - 1, x);
    }
  }

  lemma {:induction false} VisitedDistinct(p: Bytes, o: nat, k: nat)
    requires !Returns(p, o) && forall i: nat :: i < k ==> Position(p, o, i).Some?
    ensures |Visited(p, o, k)| == k
  {
    if k > 0 {
      VisitedDistinct(p, o, k - 1);
      var last := Position(p, o, k - 1).value;
      if last in Visited(p, o, k - 1) {
        var _ := VisitedAt(p, o, k - 1, last);
      }
    }
  }

  /**
    The JSON name parser fails to return if and only if its walk comes back to a position it has
    stood on.  So a loop in the packet is the one thing that keeps it busy.
   */
  lemma {:induction false} JsonHaltsIffNoReturn(p: Bytes, o: nat)
    ensures JsonHalts(p, o) <==> !Returns(p, o)
  {
    if JsonHalts(p, o) {
      var n := JsonStops(p, o, |p| + 1);
      if Returns(p, o) {
        ReturnNeverStops(p, o, n);
      }
    } else if !Returns(p, o) {
      forall n: nat | n <= |p| + 1
        ensures !StopsIn(p, o, n)
      {
        if StopsIn(p, o, n) {
          JsonStopped(p, o, n, |p| + 1);
        }
      }
      MovesOn(p, o, |p| + 1);
      VisitedDistinct(p, o, |p| + 1);
      var seen := Visited(p, o, |p| + 1);
      forall x | x in seen
        ensures x < |p|
      {
        var _ := VisitedAt(p, o, |p| + 1, x);
      }
      BoundedSet(seen, |p|);
    }
  }

  /** Wherever a pointer points at itself the parser is busy for ever. */
  lemma {:induction false} JsonSelfPointer(p: Bytes, o: nat)
    requires Move(p, o) == Some(o)
    ensures Returns(p, o) && forall steps: nat :: JsonFrom(p, o, steps) == OutOfSteps
  {
    assert Position(p, o, 0) == Some(o) && Position(p, o, 1) == Some(o);
    JsonHaltsIffNoReturn(p, o);
    JsonHaltsIffBounded(p, o);
  }

  // ---------------------------------------------------------------- agreement with the decoder

  /** Iterations of a successful decode, counted as the unbounded walk counts them. */
  lemma {:induction false} DecodeJson(p: Bytes, cur: nat, ptrs: nat, wlen: nat) returns (n: nat)
    requires ptrs <= MAX_POINTERS && Decode(p, cur, ptrs, wlen).Ok?
    ensures StopsIn(p, cur, n)
    ensures JsonFrom(p, cur, n)
        == Parsed(Decode(p, cur, ptrs, wlen).value.labels, Decode(p, cur, ptrs, wlen).value.next)
    decreases MAX_POINTERS - ptrs, |p| - cur
  {
    if p[cur] >= 0xC0 {
      n := DecodeJson(p, PointerTarget(p, cur), ptrs + 1, wlen);
      n := n + 1;
    } else if p[cur] == 0 {
      n := 1;
    } else {
      n := DecodeJson(p, cur + 1 + p[cur] as int, ptrs, wlen + 1 + p[cur] as int);
      n := n + 1;
    }
  }

  lemma {:induction false} DecodeLower(p: Bytes, cur: nat, ptrs: nat, wlen: nat, n: nat, jumps: nat)
    requires ptrs <= MAX_POINTERS && Decode(p, cur, ptrs, wlen).Ok?
    requires StopsIn(p, cur, n) && jumps + n <= |p| + 1
    ensures LowerFrom(p, cur, jumps) == Some(Decode(p, cur, ptrs, wlen).value)
    decreases n
  {
    if p[cur] >= 0xC0 {
      DecodeLower(p, PointerTarget(p, cur), ptrs + 1, wlen, n - 1, jumps + 1);
    } else if p[cur] != 0 {
      DecodeLower(p, cur + 1 + p[cur] as int, ptrs, wlen + 1 + p[cur] as int, n - 1, jumps);
    }
  }

  lemma {:induction false} DecodeSkip(p: Bytes, cur: nat, ptrs: nat, wlen: nat)
    requires ptrs <= MAX_POINTERS && Decode(p, cur, ptrs, wlen).Ok?
    ensures Skip(p, cur) == Ok(Decode(p, cur, ptrs, wlen).value.next)
    decreases |p| - cur
  {
    if 0 < p[cur] < 0x40 {
      DecodeSkip(p, cur + 1 + p[cur] as int, ptrs, wlen + 1 + p[cur] as int);
    }
  }

  /** The name at `o` ends in a compression pointer. */
  predicate EndsInPointer(p: Bytes, o: nat)
    requires Skip(p, o).Ok?
    decreases |p| - o
  {
    p[o] >= 0xC0 || (p[o] != 0 && EndsInPointer(p, o + 1 + p[o] as int))
  }

  /** Octets the name at `o` occupies before its pointer, or with its root octet. */
  function InlineOctets(p: Bytes, o: nat): (n: nat)
    requires Skip(p, o).Ok?
    ensures n + (if EndsInPointer(p, o) then 2 else 0) == Skip(p, o).value - o
    decreases |p| - o
  {
    if p[o] >= 0xC0 then 0
    else if p[o] == 0 then 1
    else 1 + p[o] as int + InlineOctets(p, o + 1 + p[o] as int)
  }

  lemma {:induction false} SkipNameExactFrom(p: Bytes, o: nat, qlen: nat)
    requires o < |p|
    ensures SkipNameFrom(p, o, qlen).Ok?
       <==> Skip(p, o).Ok?
            && (EndsInPointer(p, o) || Skip(p, o).value < |p|)
            && (InlineOctets(p, o) == 0 || qlen + InlineOctets(p, o) <= MAX_HOSTNAME)
    ensures SkipNameFrom(p, o, qlen).Ok? ==> SkipNameFrom(p, o, qlen).value == Skip(p, o).value
    decreases |p| - o
  {
    var end := o + 1 + p[o] as int;
    if 0 < p[o] < 0x40 && end < |p| {
      SkipNameExactFrom(p, end, qlen + 1 + p[o] as int);
    } else if 0 < p[o] < 0x40 && end == |p| {
      assert Skip(p, end).Err?;
    }
  }

  /**
    dns::skip_name accepts exactly the names skip_wire accepts that occupy at most 256 octets
    in place and are followed by a byte, or end in a pointer; it then lands where skip_wire does.
   */
  lemma {:induction false} SkipNameExact(p: Bytes, o: nat)
    requires |p| > 0
    ensures SkipName(p, o).Ok?
       <==> Skip(p, o).Ok? && (EndsInPointer(p, o) || Skip(p, o).value < |p|) && InlineOctets(p, o) <= 256
    ensures SkipName(p, o).Ok? ==> SkipName(p, o).value == Skip(p, o).value
  {
    if o < |p| {
      SkipNameExactFrom(p, o, 0);
    }
  }

  lemma {:induction false} DecodeInlineOctets(p: Bytes, cur: nat, ptrs: nat, wlen: nat)
    requires ptrs <= MAX_POINTERS && wlen <= MAX_NAME_OCTETS && Decode(p, cur, ptrs, wlen).Ok?
    ensures Skip(p, cur).Ok? && wlen + InlineOctets(p, cur) <= MAX_NAME_OCTETS + 1
    decreases |p| - cur
  {
    DecodeSkip(p, cur, ptrs, wlen);
    if 0 < p[cur] < 0x40 {
      DecodeInlineOctets(p, cur + 1 + p[cur] as int, ptrs, wlen + 1 + p[cur] as int);
    }
  }

  /** Wherever the decoder succeeds all five walkers give its labels and its next offset. */
  lemma {:induction false} WalkersAgree(p: Bytes, o: nat)
    requires DecodeName(p, o).Ok?
    ensures var Decoded(labels, next) := DecodeName(p, o).value;
            && Skip(p, o) == Ok(next)
            && (SkipName(p, o) == Ok(next) <==> EndsInPointer(p, o) || next < |p|)
            && LowerName(p, o) == Some(Text(LowerText(labels), next))
            && JsonHalts(p, o)
            && JsonFrom(p, o, |p| + 1) == Parsed(labels, next)
  {
    var n := DecodeJson(p, o, 0, 1);
    StopsWithinLength(p, o, n);
    JsonStopped(p, o, n, |p| + 1);
    DecodeLower(p, o, 0, 1, n, 0);
    DecodeSkip(p, o, 0, 1);
    DecodeInlineOctets(p, o, 0, 1);
    SkipNameExact(p, o);
  }
}
