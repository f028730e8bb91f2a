/**
  TTL extraction and the in-place EDNS editors of dns.rs (sections 6.1.1 and 6.1.2 of RFC 6891,
  section 3 of RFC 7830).
 */
module Edns {
  import opened Wire
  import opened Names
  import opened Layout

  const OPTION_PADDING: uint16 := 12
  const FILLER: byte := 88

  /** The growable packet buffer the editors work on. */
  class PacketBuffer {
    var data: Bytes

    constructor (data: Bytes)
      ensures this.data == data
    {
      this.data := data;
    }
  }

  // ---------------------------------------------------------------- min_ttl

  datatype Least = Least(ttl: uint32, end: nat)

  /** The traversal with the TTL callback: the least TTL of non-OPT records below `least`. */
  function LeastTtl(p: Bytes, o: nat, n: nat, least: uint32): (r: Result<Least, DnsError>)
    requires |p| > 0
    decreases |p|, n
  {
    if n == 0 then Ok(Least(least, o)) else
      var s :- StepAt(p, o);
      var ttl := U32(p, s.body + 4);
      LeastTtl(p, s.end, n - 1, if !IsOpt(p, s) && ttl < least then ttl else least)
  }

  function MinTtl(p: Bytes, minTtl: uint32, maxTtl: uint32, failureTtl: uint32): Result<uint32, DnsError> {
    if |p| <= HEADER_SIZE then Err(TooShort)
    else if |p| > MAX_PACKET then Err(TooLarge)
    else if U16(p, 4) != 1 then Err(NoQuestion)
    else
      var o :- SkipName(p, HEADER_SIZE);
      if |p| - o <= 4 then Err(TooShort) else
        var rrcount := U16(p, 6) as int + U16(p, 8) as int + U16(p, 10) as int;
        var found :- LeastTtl(p, o + 4, rrcount, if rrcount > 0 then maxTtl else failureTtl);
        if found.end != |p| then Err(Garbage)
        else Ok(if found.ttl < minTtl then minTtl else found.ttl)
  }

  method LeastTtlLoop(p: Bytes, start: nat, count: nat, initial: uint32) returns (r: Result<Least, DnsError>)
    requires |p| > 0
    ensures r == LeastTtl(p, start, count, initial)
  {
    hide SkipName, U16, U32;
    var offset: nat := start;
    var least: uint32 := initial;
    for i := 0 to count
      invariant LeastTtl(p, offset, count - i, least) == LeastTtl(p, start, count, initial)
    {
      var body := SkipNameLoop(p, offset);
      if body.Err? {
        return Err(body.error);
      }
      offset := body.value;
      if |p| - offset < 10 {
        return Err(TooShort);
      }
      var qtype := U16(p, offset);
      var ttl := U32(p, offset + 4);
      if qtype != TYPE_OPT && ttl < least {
        least := ttl;
      }
      var rdlen: nat := U16(p, offset + 8);
      offset := offset + 10;
      if |p| - offset < rdlen {
        return Err(RecordOutOfBounds);
      }
      offset := offset + rdlen;
    }
    return Ok(Least(least, offset));
  }

  method ComputeMinTtl(p: Bytes, minTtl: uint32, maxTtl: uint32, failureTtl: uint32)
    returns (r: Result<uint32, DnsError>)
    ensures r == MinTtl(p, minTtl, maxTtl, failureTtl)
  {
    if |p| <= HEADER_SIZE {
      return Err(TooShort);
    }
    if |p| > MAX_PACKET {
      return Err(TooLarge);
    }
    if U16(p, 4) != 1 {
      return Err(NoQuestion);
    }
    var question := SkipNameLoop(p, HEADER_SIZE);
    if question.Err? {
      return Err(question.error);
    }
    var offset := question.value;
    if |p| - offset <= 4 {
      return Err(TooShort);
    }
    offset := offset + 4;
    var rrcount := U16(p, 6) as int + U16(p, 8) as int + U16(p, 10) as int;
    var found := LeastTtlLoop(p, offset, rrcount, if rrcount > 0 then maxTtl else failureTtl);
    if found.Err? {
      return Err(found.error);
    }
    var ttl := found.value.ttl;
    if ttl < minTtl {
      ttl := minTtl;
    }
    if |p| != found.value.end {
      return Err(Garbage);
    }
    return Ok(ttl);
  }

  // ---------------------------------------------------------------- finding the OPT record

  /** The OPT body met so far and how the traversal of the additional section ended. */
  datatype Scan = Scan(opt: Option<nat>, out: Result<nat, DnsError>)

  /** The traversal with the callback that looks for the OPT and refuses a second one. */
  function ScanFrom(p: Bytes, o: nat, n: nat, found: Option<nat>): (r: Scan)
    requires |p| > 0
    ensures found.Some? ==> r.opt == found
    ensures r.opt.Some? && found.None? ==> o < r.opt.value && r.opt.value + 10 <= |p|
    decreases |p|, n
  {
    if n == 0 then Scan(found, Ok(o)) else
      match SkipName(p, o)
      case Err(e) => Scan(found, Err(e))
      case Ok(body) =>
        if |p| - body < 10 then Scan(found, Err(TooShort))
        else if U16(p, body) == TYPE_OPT && found.Some? then Scan(found, Err(DuplicateOpt))
        else
          var found' := if U16(p, body) == TYPE_OPT then Some(body) else found;
          if |p| - (body + 10) < U16(p, body + 8) then Scan(found', Err(RecordOutOfBounds))
          else ScanFrom(p, body + 10 + U16(p, body + 8), n - 1, found')
  }

  /** The checks and walks that lead to the additional section; its offset. */
  function AdditionalStart(p: Bytes): (r: Result<nat, DnsError>)
    ensures r.Ok? ==> HEADER_SIZE < |p| <= MAX_PACKET && HEADER_SIZE < r.value <= |p|
  {
    if |p| <= HEADER_SIZE then Err(TooShort)
    else if |p| > MAX_PACKET then Err(TooLarge)
    else if U16(p, 4) != 1 then Err(NoQuestion)
    else
      var o :- SkipName(p, HEADER_SIZE);
      if |p| - o < 4 then Err(TooShort) else
        var t :- Traverse(p, o + 4, U16(p, 6) as int + U16(p, 8) as int);
        Ok(t.end)
  }

  method FindAdditional(p: Bytes) returns (r: Result<nat, DnsError>)
    ensures r == AdditionalStart(p)
  {
    if |p| <= HEADER_SIZE {
      return Err(TooShort);
    }
    if |p| > MAX_PACKET {
      return Err(TooLarge);
    }
    if U16(p, 4) != 1 {
      return Err(NoQuestion);
    }
    var question := SkipNameLoop(p, HEADER_SIZE);
    if question.Err? {
      return Err(question.error);
    }
    if |p| - question.value < 4 {
      return Err(TooShort);
    }
    r := TraverseRrs(p, question.value + 4, U16(p, 6) as int + U16(p, 8) as int);
  }

  lemma {:induction false} SkipNameFromSuffix(p: Bytes, q: Bytes, o: nat, qlen: nat)
    requires |p| == |q| && o < |p| && p[o..] == q[o..]
    ensures SkipNameFrom(p, o, qlen) == SkipNameFrom(q, o, qlen)
    decreases |p| - o
  {
    assert p[o] == p[o..][0] == q[o..][0] == q[o];
    var end := o + 1 + p[o] as int;
    if 0 < p[o] < 0x40 && end < |p| {
      SuffixSlices(p, q, o, end);
      SkipNameFromSuffix(p, q, end, qlen + 1 + p[o] as int);
    }
  }

  lemma {:induction false} SuffixField(p: Bytes, q: Bytes, o: nat, i: nat)
    requires |p| == |q| && o <= i && i + 2 <= |p| && p[o..] == q[o..]
    ensures U16(q, i) == U16(p, i)
  {
    assert p[i] == p[o..][i - o] == q[o..][i - o] == q[i];
    assert p[i + 1] == p[o..][i + 1 - o] == q[o..][i + 1 - o] == q[i + 1];
  }

  function Patched(p: Bytes, opt: Option<nat>, size: Option<uint16>): (q: Bytes)
    requires opt.Some? ==> opt.value + 4 <= |p|
    ensures |q| == |p|
  {
    if opt.Some? && size.Some? then Put16(p, opt.value + 2, size.value) else p
  }

  /** The loop of traverse_rrs_mut between two records: `left` are still to come, the buffer reads `q`. */
  ghost predicate ScanInv(p: Bytes, start: nat, count: nat, size: Option<uint16>,
                          q: Bytes, offset: nat, left: nat, found: Option<nat>) {
    && |p| > 0 && |q| == |p| && offset <= |p| && p[offset..] == q[offset..]
    && (found.Some? ==> found.value + 10 <= offset)
    && q == Patched(p, found, size)
    && ScanFrom(p, offset, left, found) == ScanFrom(p, start, count, None)
  }

  lemma {:induction false} ScanStart(p: Bytes, start: nat, count: nat, size: Option<uint16>)
    requires |p| > 0 && start <= |p|
    ensures ScanInv(p, start, count, size, p, start, count, None)
  {
  }

  /** What the loop body sees at `offset`; the errors it can return there. */
  lemma {:induction false} ScanSees(p: Bytes, start: nat, count: nat, size: Option<uint16>,
                                    q: Bytes, offset: nat, left: nat, found: Option<nat>)
    requires ScanInv(p, start, count, size, q, offset, left, found) && left > 0
    ensures |p| > 0 && |q| == |p| && q == Patched(p, found, size)
    ensures found.Some? ==> found.value + 10 <= |p|
    ensures match SkipName(q, offset)
            case Err(e) => ScanFrom(p, start, count, None) == Scan(found, Err(e))
            case Ok(body) =>
              if |q| - body < 10 then ScanFrom(p, start, count, None) == Scan(found, Err(TooShort))
              else if U16(q, body) == TYPE_OPT && found.Some? then
                ScanFrom(p, start, count, None) == Scan(found, Err(DuplicateOpt))
              else |q| - (body + 10) < U16(q, body + 8) ==>
                ScanFrom(p, start, count, None)
                == Scan(if U16(q, body) == TYPE_OPT then Some(body) else found, Err(RecordOutOfBounds))
  {
    if offset < |p| - 1 {
      SkipNameFromSuffix(p, q, offset, 0);
    }
    if SkipName(q, offset).Ok? && |q| - SkipName(q, offset).value >= 10 {
      SuffixField(p, q, offset, SkipName(q, offset).value);
      SuffixField(p, q, offset, SkipName(q, offset).value + 8);
    }
  }

  lemma {:induction false} ScanStep(p: Bytes, start: nat, count: nat, size: Option<uint16>,
                                    q: Bytes, offset: nat, left: nat, found: Option<nat>, body: nat)
    requires ScanInv(p, start, count, size, q, offset, left, found) && left > 0
    requires SkipName(q, offset) == Ok(body) && body + 10 <= |q| && body + 10 + U16(q, body + 8) <= |q|
    requires !(U16(q, body) == TYPE_OPT && found.Some?)
    ensures var found' := if U16(q, body) == TYPE_OPT then Some(body) else found;
            ScanInv(p, start, count, size, Patched(p, found', size), body + 10 + U16(q, body + 8), left - 1, found')
  {
    hide SkipNameFrom, U16;
    var end := body + 10 + U16(q, body + 8);
    SkipNameFromSuffix(p, q, offset, 0);
    SuffixField(p, q, offset, body);
    SuffixField(p, q, offset, body + 8);
    SuffixSlices(p, q, offset, end);
    if U16(q, body) == TYPE_OPT && size.Some? {
      Put16RoundTrip(p, body + 2, size.value);
      assert Put16(p, body + 2, size.value)[end..] == p[end..];
    }
  }

  lemma {:induction false} ScanDone(p: Bytes, start: nat, count: nat, size: Option<uint16>,
                                    q: Bytes, offset: nat, found: Option<nat>)
    requires ScanInv(p, start, count, size, q, offset, 0, found)
    ensures |p| > 0 && q == Patched(p, found, size) && ScanFrom(p, start, count, None) == Scan(found, Ok(offset))
  {
  }

  /**
    The additional-section loop of both editors.  The one that sets the payload size passes it
    and has it written into the OPT's class field; the padding editor only records the OPT.
   */
  method ScanAdditional(packet: PacketBuffer, start: nat, count: nat, size: Option<uint16>) returns (r: Scan)
    requires 0 < |packet.data| && start <= |packet.data|
    modifies packet
    ensures r == ScanFrom(old(packet.data), start, count, None)
    ensures packet.data == Patched(old(packet.data), r.opt, size)
  {
    hide ScanInv, ScanFrom, SkipName, U16, Put16, Patched;
    ghost var p := packet.data;
    var offset: nat := start;
    var found: Option<nat> := None;
    ScanStart(p, start, count, size);
    for i := 0 to count
      invariant ScanInv(p, start, count, size, packet.data, offset, count - i, found)
    {
      ghost var q := packet.data;
      ScanSees(p, start, count, size, q, offset, count - i, found);
      var body := SkipNameLoop(packet.data, offset);
      if body.Err? {
        return Scan(found, Err(body.error));
      }
      ghost var was := offset;
      offset := body.value;
      if |packet.data| - offset < 10 {
        return Scan(found, Err(TooShort));
      }
      ghost var before := found;
      if U16(packet.data, offset) == TYPE_OPT {
        if found.Some? {
          return Scan(found, Err(DuplicateOpt));
        }
        PatchedKeeps(p, before, offset, size, q);
        if size.Some? {
          packet.data := Put16(packet.data, offset + 2, size.value);
        }
        found := Some(offset);
      }
      var rdlen: nat := U16(packet.data, offset + 8);
      offset := offset + 10;
      if |packet.data| - offset < rdlen {
        return Scan(found, Err(RecordOutOfBounds));
      }
      ScanStep(p, start, count, size, q, was, count - i, before, offset - 10);
      offset := offset + rdlen;
    }
    ScanDone(p, start, count, size, packet.data, offset, found);
    return Scan(found, Ok(offset));
  }

  /** Writing the class of the first OPT met turns the untouched buffer into the patched one. */
  lemma {:induction false} PatchedKeeps(p: Bytes, before: Option<nat>, body: nat, size: Option<uint16>, q: Bytes)
    requires before.None? && q == Patched(p, before, size) && body + 10 <= |p|
    ensures q == p
    ensures Patched(p, Some(body), size) == if size.Some? then Put16(q, body + 2, size.value) else q
    ensures |Patched(p, Some(body), size)| == |q| && U16(Patched(p, Some(body), size), body + 8) == U16(q, body + 8)
  {
  }

  // ---------------------------------------------------------------- adding an OPT record

  function OptRecord(size: uint16): (b: Bytes)
    ensures |b| == 11
  {
    [0] + Be16(TYPE_OPT) + Be16(size) + [0, 0, 0, 0, 0, 0]
  }

  /** Section 6.1.2 of RFC 6891: the root, type 41, the size as class, no flags, no data. */
  lemma {:induction false} OptOctets(size: uint16)
    ensures OptRecord(size) == [0, 0, 41, size / 256, size % 256, 0, 0, 0, 0, 0, 0]
  {
  }

  /** The bytes an editor leaves and whether it succeeded. */
  datatype Edited = Edited(bytes: Bytes, out: Result<(), DnsError>)

  function AddSection(p: Bytes, size: uint16): (r: Edited)
    requires HEADER_SIZE <= |p| <= MAX_PACKET
  {
    if MAX_PACKET - |p| < 11 then Edited(p, Err(NoRoomForRecord))
    else if U16(p, 10) >= 0xFFFF then Edited(p, Err(TooManyAdditional))
    else Edited(Put16(p, 10, U16(p, 10) as int + 1) + OptRecord(size), Ok(()))
  }

  method AddEdnsSection(packet: PacketBuffer, size: uint16) returns (r: Result<(), DnsError>)
    requires HEADER_SIZE <= |packet.data| <= MAX_PACKET
    modifies packet
    ensures Edited(packet.data, r) == AddSection(old(packet.data), size)
  {
    var optRr := OptRecord(size);
    if MAX_PACKET - |packet.data| < |optRr| {
      return Err(NoRoomForRecord);
    }
    var arcount := U16(packet.data, 10);
    if arcount >= 0xFFFF {
      return Err(TooManyAdditional);
    }
    packet.data := Put16(packet.data, 10, arcount as int + 1);
    packet.data := packet.data + optRr;
    return Ok(());
  }

  // ---------------------------------------------------------------- set_edns_max_payload_size

  function SetEdns(p: Bytes, size: uint16): Edited {
    match AdditionalStart(p)
    case Err(e) => Edited(p, Err(e))
    case Ok(start) =>
      var scan := ScanFrom(p, start, U16(p, 10), None);
      var q := Patched(p, scan.opt, Some(size));
      match scan.out
      case Err(e) => Edited(q, Err(e))
      case Ok(_) => if scan.opt.Some? then Edited(q, Ok(())) else AddSection(q, size)
  }

  method SetEdnsMaxPayloadSize(packet: PacketBuffer, size: uint16) returns (r: Result<(), DnsError>)
    modifies packet
    ensures Edited(packet.data, r) == SetEdns(old(packet.data), size)
  {
    var start := FindAdditional(packet.data);
    if start.Err? {
      return Err(start.error);
    }
    var scan := ScanAdditional(packet, start.value, U16(packet.data, 10), Some(size));
    if scan.out.Err? {
      return Err(scan.out.error);
    }
    if scan.opt.Some? {
      return Ok(());
    }
    r := AddEdnsSection(packet, size);
  }

  // ---------------------------------------------------------------- add_edns_padding

  const BOUNDARIES: seq<nat> := [64, 128, 192, 256, 320, 384, 512, 704, 768, 896, 960, 1024, 1088, 1152, 2688, 4080]

  /** The first boundary that is not below the length, else the largest packet. */
  function BoundaryFrom(i: nat, len: nat): (r: nat)
    requires i <= |BOUNDARIES|
    decreases |BOUNDARIES| - i
  {
    if i == |BOUNDARIES| then MAX_PACKET
    else if BOUNDARIES[i] >= len then BOUNDARIES[i]
    else BoundaryFrom(i + 1, len)
  }

  function PaddedLen(len: nat): nat {
    BoundaryFrom(0, len)
  }

  function PaddingOption(size: uint16): (b: Bytes)
    ensures |b| == 4 + size
  {
    Be16(OPTION_PADDING) + Be16(size) + seq(size, _ => FILLER)
  }

  /** Option 12, its length, and that many octets 'X'. */
  lemma {:induction false} PaddingOctets(size: uint16)
    ensures var b := PaddingOption(size);
            && b[..4] == [0, 12, size / 256, size % 256] && |b| == 4 + size
            && forall i :: 4 <= i < |b| ==> b[i] == 88
  {
  }

  lemma {:induction false} PaddedLenBounds(len: nat)
    requires len <= MAX_PACKET
    ensures len <= PaddedLen(len) <= MAX_PACKET
    ensures len <= 4080 ==> PaddedLen(len) <= 4080
    ensures len > 4080 ==> PaddedLen(len) == MAX_PACKET
  {
    BoundaryBounds(0, len);
  }

  lemma {:induction false} BoundaryBounds(i: nat, len: nat)
    requires i <= |BOUNDARIES| && len <= MAX_PACKET
    ensures len <= BoundaryFrom(i, len) <= MAX_PACKET
    ensures len <= 4080 && i < |BOUNDARIES| ==> BoundaryFrom(i, len) <= 4080
    ensures len > 4080 ==> BoundaryFrom(i, len) == MAX_PACKET
    decreases |BOUNDARIES| - i
  {
    assert BOUNDARIES[15] == 4080;
    assert forall k :: 0 <= k < 16 ==> BOUNDARIES[k] <= 4080;
    if i < |BOUNDARIES| {
      BoundaryBounds(i + 1, len);
    }
  }

  /** The padded length is the least block length that is not below the length, the largest packet when none is. */
  lemma {:induction false} PaddedLenLeast(len: nat)
    requires len <= 4096
    ensures var blocks := {64, 128, 192, 256, 320, 384, 512, 704, 768, 896, 960, 1024, 1088, 1152, 2688, 4080, 4096};
            && len <= PaddedLen(len) && PaddedLen(len) in blocks
            && forall b :: b in blocks && b >= len ==> PaddedLen(len) <= b
  {
    hide BOUNDARIES, BoundaryFrom;
    BoundaryLeast(0, len);
    BoundariesAre();
    PaddedLenBounds(len);
    var blocks := {64, 128, 192, 256, 320, 384, 512, 704, 768, 896, 960, 1024, 1088, 1152, 2688, 4080, 4096};
    forall b | b in blocks && b >= len
      ensures PaddedLen(len) <= b
    {
      assert b == 4096 || b in BOUNDARIES;
    }
  }

  lemma {:induction false} BoundariesAre()
    ensures forall b :: b in BOUNDARIES <==>
              b in {64, 128, 192, 256, 320, 384, 512, 704, 768, 896, 960, 1024, 1088, 1152, 2688, 4080}
  {
    var blocks := {64, 128, 192, 256, 320, 384, 512, 704, 768, 896, 960, 1024, 1088, 1152, 2688, 4080};
    assert forall i :: 0 <= i < |BOUNDARIES| ==> BOUNDARIES[i] in blocks;
    assert BOUNDARIES[..4] == [64, 128, 192, 256] && BOUNDARIES[4..8] == [320, 384, 512, 704];
  }

  lemma {:induction false} BoundaryLeast(i: nat, len: nat)
    requires i <= |BOUNDARIES| && len <= MAX_PACKET
    requires forall k :: 0 <= k < i ==> BOUNDARIES[k] < len
    ensures len <= BoundaryFrom(i, len) && (BoundaryFrom(i, len) in BOUNDARIES || BoundaryFrom(i, len) == MAX_PACKET)
    ensures forall b :: b in BOUNDARIES && b >= len ==> BoundaryFrom(i, len) <= b
    decreases |BOUNDARIES| - i
  {
    if i < |BOUNDARIES| {
      if BOUNDARIES[i] >= len {
        BoundariesSorted(i);
      } else {
        BoundaryLeast(i + 1, len);
      }
    }
  }

  lemma {:induction false} BoundariesSorted(i: nat)
    requires i < |BOUNDARIES|
    ensures forall k :: i <= k < |BOUNDARIES| ==> BOUNDARIES[i] <= BOUNDARIES[k]
  {
  }

  /** Extending the OPT whose body is at `body` by a padding option at the packet's end. */
  function PadAt(p: Bytes, body: nat): Edited
    requires |p| <= MAX_PACKET
  {
    PaddedLenBounds(|p|);
    var padding := PaddedLen(|p|) - |p|;
    var grow := 4 + padding;
    if |p| < body + 8 + 2 then Edited(p, Err(TooShort)) else
      var rdlen := U16(p, body + 8) as int;
      if body + rdlen > |p| then Edited(p, Err(EdnsOutOfRange))
      else if 0xFFFF - rdlen < grow then Edited(p, Err(EdnsTooLarge))
      else if MAX_PACKET - |p| < grow then Edited(p, Err(TooLarge))
      else Edited(Put16(p, body + 8, rdlen + grow) + PaddingOption(padding), Ok(()))
  }

  function AddPadding(p: Bytes): Edited {
    match AdditionalStart(p)
    case Err(e) => Edited(p, Err(e))
    case Ok(start) =>
      var scan := ScanFrom(p, start, U16(p, 10), None);
      match scan.out
      case Err(e) => Edited(p, Err(e))
      case Ok(_) =>
        if scan.opt.Some? then PadAt(p, scan.opt.value)
        else
          var added := AddSection(p, MAX_PACKET);
          if added.out.Err? then added else PadAt(added.bytes, |p| + 1)
  }

  method PaddedLength(len: nat) returns (r: nat)
    ensures r == PaddedLen(len)
  {
    for i := 0 to |BOUNDARIES|
      invariant PaddedLen(len) == BoundaryFrom(i, len)
    {
      if BOUNDARIES[i] >= len {
        return BOUNDARIES[i];
      }
    }
    return MAX_PACKET;
  }

  method AddEdnsPadding(packet: PacketBuffer) returns (r: Result<(), DnsError>)
    modifies packet
    ensures Edited(packet.data, r) == AddPadding(old(packet.data))
  {
    hide ScanFrom, AdditionalStart, BoundaryFrom, U16, Put16, PaddingOption, OptRecord;
    var start := FindAdditional(packet.data);
    if start.Err? {
      return Err(start.error);
    }
    var scan := ScanAdditional(packet, start.value, U16(packet.data, 10), None);
    if scan.out.Err? {
      return Err(scan.out.error);
    }
    var ednsOffset: nat;
    if scan.opt.Some? {
      ednsOffset := scan.opt.value;
    } else {
      ednsOffset := |packet.data| + 1;
      r := AddEdnsSection(packet, MAX_PACKET);
      if r.Err? {
        return;
      }
    }
    PaddedLenBounds(|packet.data|);
    var boundary := PaddedLength(|packet.data|);
    var padding := boundary - |packet.data|;
    var prr := PaddingOption(padding);
    if |packet.data| < ednsOffset + 8 + 2 {
      return Err(TooShort);
    }
    var rdlen := U16(packet.data, ednsOffset + 8) as int;
    if ednsOffset + rdlen > |packet.data| {
      return Err(EdnsOutOfRange);
    }
    if 0xFFFF - rdlen < |prr| {
      return Err(EdnsTooLarge);
    }
    if MAX_PACKET - |packet.data| < |prr| {
      return Err(TooLarge);
    }
    packet.data := Put16(packet.data, ednsOffset + 8, rdlen + |prr|);
    packet.data := packet.data + prr;
    return Ok(());
  }
}
