/** EDNS Client Subnet insertion of edns_ecs.rs (section 6 of RFC 7871). */
module Ecs {
  import opened Wire
  import opened Names
  import opened Layout
  import opened Edns

  const OPTION_SUBNET: uint16 := 8
  const FAMILY_IPV4: uint16 := 1
  const FAMILY_IPV6: uint16 := 2

  // ---------------------------------------------------------------- build_ecs_option

  function DivCeil8(n: byte): nat {
    (n + 7) / 8
  }

  function AddressBytes(octets: Bytes, prefix: byte): Bytes {
    octets[..if DivCeil8(prefix) < |octets| then DivCeil8(prefix) else |octets|]
  }

  function EcsData(ip: IpAddr, prefix4: byte, prefix6: byte): (b: Bytes)
    ensures 4 <= |b| <= 20
  {
    match ip
    case V4(octets) => Be16(FAMILY_IPV4) + [prefix4] + [0] + AddressBytes(octets, prefix4)
    case V6(octets) => Be16(FAMILY_IPV6) + [prefix6] + [0] + AddressBytes(octets, prefix6)
  }

  method BuildEcsOption(ip: IpAddr, prefix4: byte, prefix6: byte) returns (data: Bytes)
    ensures data == EcsData(ip, prefix4, prefix6)
  {
    data := [];
    match ip {
      case V4(octets) =>
        data := data + Be16(FAMILY_IPV4);
        data := data + [prefix4];
        data := data + [0];
        data := data + AddressBytes(octets, prefix4);
      case V6(octets) =>
        data := data + Be16(FAMILY_IPV6);
        data := data + [prefix6];
        data := data + [0];
        data := data + AddressBytes(octets, prefix6);
    }
  }

  /**
    Octet by octet: the family number, the configured prefix, scope zero, and the leading octets of
    the address, as many as the prefix has whole or begun octets and the address holds.
   */
  lemma {:induction false} EcsOctets(ip: IpAddr, prefix4: byte, prefix6: byte)
    ensures var b := EcsData(ip, prefix4, prefix6);
            match ip
            case V4(octets) =>
              && b[..4] == [0, 1, prefix4, 0]
              && |b| == 4 + (if (prefix4 + 7) / 8 < 4 then (prefix4 + 7) / 8 else 4)
              && forall i :: 0 <= i < |b| - 4 ==> b[4 + i] == octets[i]
            case V6(octets) =>
              && b[..4] == [0, 2, prefix6, 0]
              && |b| == 4 + (if (prefix6 + 7) / 8 < 16 then (prefix6 + 7) / 8 else 16)
              && forall i :: 0 <= i < |b| - 4 ==> b[4 + i] == octets[i]
  {
  }

  /** A client at 192.0.2.77 with a prefix of 24 bits sends its network. */
  lemma {:induction false} EcsExample(prefix6: byte)
    ensures EcsOption(V4([192, 0, 2, 77]), 24, prefix6) == [0, 8, 0, 7, 0, 1, 24, 0, 192, 0, 2]
  {
  }

  function Pow2(n: nat): (r: nat)
    ensures r > 0
  {
    if n == 0 then 1 else 2 * Pow2(n - 1)
  }

  /** The address field section 6 of RFC 7871 asks for: as many octets as the prefix needs, unused bits zero. */
  ghost predicate AddressConforms(data: Bytes, prefix: byte)
    requires |data| >= 4
  {
    && |data| == 4 + DivCeil8(prefix)
    && (prefix % 8 != 0 ==> data[|data| - 1] % Pow2(8 - prefix % 8) == 0)
  }

  ghost predicate AllConform4(prefix4: byte, prefix6: byte) {
    forall o: Bytes :: |o| == 4 ==> AddressConforms(EcsData(V4(o), prefix4, prefix6), prefix4)
  }

  ghost predicate AllConform6(prefix4: byte, prefix6: byte) {
    forall o: Bytes :: |o| == 16 ==> AddressConforms(EcsData(V6(o), prefix4, prefix6), prefix6)
  }

  lemma {:induction false} PowBound(n: nat)
    requires 1 <= n <= 7
    ensures 2 <= Pow2(n) && 255 % Pow2(n) != 0
  {
    assert Pow2(1) == 2 && Pow2(2) == 4 && Pow2(3) == 8;
    assert Pow2(4) == 16 && Pow2(5) == 32 && Pow2(6) == 64 && Pow2(7) == 128;
  }

  /**
    The option cuts whole octets only, so it conforms for every address exactly when the
    configured prefix is a multiple of 8 that the family can hold.
   */
  lemma {:induction false} ConformsIffWholeOctets4(prefix4: byte, prefix6: byte)
    ensures AllConform4(prefix4, prefix6) <==> prefix4 % 8 == 0 && prefix4 <= 32
  {
    var ones: Bytes := seq(4, _ => 255);
    if AllConform4(prefix4, prefix6) {
      assert AddressConforms(EcsData(V4(ones), prefix4, prefix6), prefix4);
      if prefix4 % 8 != 0 {
        PowBound(8 - prefix4 % 8);
      }
    }
  }

  lemma {:induction false} ConformsIffWholeOctets6(prefix4: byte, prefix6: byte)
    ensures AllConform6(prefix4, prefix6) <==> prefix6 % 8 == 0 && prefix6 <= 128
  {
    var ones: Bytes := seq(16, _ => 255);
    if AllConform6(prefix4, prefix6) {
      assert AddressConforms(EcsData(V6(ones), prefix4, prefix6), prefix6);
      if prefix6 % 8 != 0 {
        PowBound(8 - prefix6 % 8);
      }
    }
  }

  // ---------------------------------------------------------------- add_ecs_to_packet

  /** Slicing outside the packet panics; everything else that goes wrong is an error. */
  datatype Outcome = Done | Refused(error: DnsError) | Panicked

  datatype Found = FoundAt(start: nat) | Missing | Bad(error: DnsError) | OutOfRange

  /** The search for a root-owned OPT among `n` records; record lengths are not checked here. */
  function FindRootOpt(p: Bytes, o: nat, n: nat): (r: Found)
    requires |p| > 0
    ensures r.FoundAt? ==> r.start + 11 <= |p|
    decreases |p|, n
  {
    if n == 0 then Missing
    else if o < |p| && p[o] == 0 && o + 3 > |p| then OutOfRange
    else if o < |p| && p[o] == 0 && U16(p, o + 1) == TYPE_OPT then
      if o + 11 > |p| then OutOfRange else FoundAt(o)
    else
      match SkipName(p, o)
      case Err(e) => Bad(e)
      case Ok(body) =>
        if body + 10 > |p| then Bad(IncompleteRecord)
        else FindRootOpt(p, body + 10 + U16(p, body + 8), n - 1)
  }

  /** The scan for an option 8, bounded by the packet as well as by the data length. */
  function HasEcs(p: Bytes, data: nat, rdlength: nat, o: nat): bool
    decreases if o < rdlength then rdlength - o else 0
  {
    if o >= rdlength || data + o + 4 > |p| then false
    else
      var len := U16(p, data + o + 2) as int;
      if data + o + 4 + len > |p| then false
      else if U16(p, data + o) == OPTION_SUBNET then true
      else HasEcs(p, data, rdlength, o + 4 + len)
  }

  function EcsOption(ip: IpAddr, prefix4: byte, prefix6: byte): (b: Bytes)
    ensures 8 <= |b| <= 24
  {
    var data := EcsData(ip, prefix4, prefix6);
    Be16(OPTION_SUBNET) + Be16(|data|) + data
  }

  lemma {:induction false} EcsOptionOctets(ip: IpAddr, prefix4: byte, prefix6: byte)
    ensures var data := EcsData(ip, prefix4, prefix6); EcsOption(ip, prefix4, prefix6) == [0, 8, 0, |data|] + data
  {
    hide EcsData;
  }

  /** The option put at the end of the data of the OPT that starts at `start`; the length field wraps at 16 bits. */
  function Spliced(p: Bytes, start: nat, option: Bytes): Bytes
    requires start + 11 <= |p|
  {
    var rdlength := U16(p, start + 9) as int;
    var q := Put16(p, start + 9, (rdlength + |option|) % 0x1_0000);
    var end := start + 11 + rdlength;
    var cut := if end < |p| then end else |p|;
    q[..cut] + option + q[cut..]
  }

  function MainSectionEnd(p: Bytes): (r: Result<nat, DnsError>)
    ensures r.Ok? ==> |p| >= HEADER_SIZE
  {
    if |p| < HEADER_SIZE then Err(TooShort)
    else if |p| > MAX_PACKET then Err(TooLarge)
    else if U16(p, 4) != 1 then Err(NoQuestion)
    else
      var o :- SkipName(p, HEADER_SIZE);
      if |p| - o < 4 then Err(TooShort)
      else if U16(p, 10) == 0 then Err(NoOptRecord)
      else
        var t :- Traverse(p, o + 4, U16(p, 6) as int + U16(p, 8) as int);
        Ok(t.end)
  }

  datatype EcsEdit = EcsEdit(bytes: Bytes, outcome: Outcome)

  function AddEcs(p: Bytes, ip: IpAddr, prefix4: byte, prefix6: byte): EcsEdit {
    match MainSectionEnd(p)
    case Err(e) => EcsEdit(p, Refused(e))
    case Ok(start) =>
      match FindRootOpt(p, start, U16(p, 10))
      case Missing => EcsEdit(p, Refused(NoOptRecord))
      case Bad(e) => EcsEdit(p, Refused(e))
      case OutOfRange => EcsEdit(p, Panicked)
      case FoundAt(opt) =>
        if HasEcs(p, opt + 11, U16(p, opt + 9), 0) then EcsEdit(p, Done)
        else EcsEdit(Spliced(p, opt, EcsOption(ip, prefix4, prefix6)), Done)
  }

  method FindOpt(p: Bytes, start: nat, count: nat) returns (r: Found)
    requires |p| > 0
    ensures r == FindRootOpt(p, start, count)
  {
    var offset: nat := start;
    for i := 0 to count
      invariant FindRootOpt(p, offset, count - i) == FindRootOpt(p, start, count)
    {
      if offset < |p| && p[offset] == 0 {
        if offset + 3 > |p| {
          return OutOfRange;
        }
        if U16(p, offset + 1) == TYPE_OPT {
          if offset + 11 > |p| {
            return OutOfRange;
          }
          return FoundAt(offset);
        }
      }
      var body := SkipNameLoop(p, offset);
      if body.Err? {
        return Bad(body.error);
      }
      offset := body.value;
      if offset + 10 > |p| {
        return Bad(IncompleteRecord);
      }
      offset := offset + 10 + U16(p, offset + 8);
    }
    return Missing;
  }

  method ScanForEcs(p: Bytes, data: nat, rdlength: nat) returns (has: bool)
    ensures has == HasEcs(p, data, rdlength, 0)
  {
    var o: nat := 0;
    while o < rdlength
      invariant HasEcs(p, data, rdlength, o) == HasEcs(p, data, rdlength, 0)
    {
      if data + o + 4 > |p| {
        return false;
      }
      var code := U16(p, data + o);
      var len: nat := U16(p, data + o + 2);
      if data + o + 4 + len > |p| {
        return false;
      }
      if code == OPTION_SUBNET {
        return true;
      }
      o := o + 4 + len;
    }
    return false;
  }

  /** Cut at the end of the OPT's data, extend, put the remainder back. */
  method SpliceOption(packet: PacketBuffer, start: nat, ecsOption: Bytes)
    requires start + 11 <= |packet.data|
    modifies packet
    ensures packet.data == Spliced(old(packet.data), start, ecsOption)
  {
    hide Put16, U16;
    var rdlength: nat := U16(packet.data, start + 9);
    packet.data := Put16(packet.data, start + 9, (rdlength + |ecsOption|) % 0x1_0000);
    var oldEnd := start + 11 + rdlength;
    var remaining := if oldEnd < |packet.data| then packet.data[oldEnd..] else [];
    ghost var q := packet.data;
    if oldEnd < |packet.data| {
      packet.data := packet.data[..oldEnd];
    }
    packet.data := packet.data + ecsOption;
    packet.data := packet.data + remaining;
    assert q[..|q|] == q && q[|q|..] == [];
  }

  method AddEcsToPacket(packet: PacketBuffer, ip: IpAddr, prefix4: byte, prefix6: byte) returns (r: Outcome)
    modifies packet
    ensures EcsEdit(packet.data, r) == AddEcs(old(packet.data), ip, prefix4, prefix6)
  {
    hide FindRootOpt, HasEcs, SkipName, Traverse, EcsData, U16, Spliced;
    if |packet.data| < HEADER_SIZE {
      return Refused(TooShort);
    }
    if |packet.data| > MAX_PACKET {
      return Refused(TooLarge);
    }
    if U16(packet.data, 4) != 1 {
      return Refused(NoQuestion);
    }
    var question := SkipNameLoop(packet.data, HEADER_SIZE);
    if question.Err? {
      return Refused(question.error);
    }
    if |packet.data| - question.value < 4 {
      return Refused(TooShort);
    }
    if U16(packet.data, 10) == 0 {
      return Refused(NoOptRecord);
    }
    var start := TraverseRrs(packet.data, question.value + 4, U16(packet.data, 6) as int + U16(packet.data, 8) as int);
    if start.Err? {
      return Refused(start.error);
    }
    var found := FindOpt(packet.data, start.value, U16(packet.data, 10));
    match found {
      case Missing => return Refused(NoOptRecord);
      case Bad(e) => return Refused(e);
      case OutOfRange => return Panicked;
      case FoundAt(_) =>
    }
    var rdlengthOffset := found.start + 9;
    var rdlength: nat := U16(packet.data, rdlengthOffset);
    var has := ScanForEcs(packet.data, rdlengthOffset + 2, rdlength);
    if has {
      return Done;
    }
    var ecsData := BuildEcsOption(ip, prefix4, prefix6);
    var ecsOption := Be16(OPTION_SUBNET) + Be16(|ecsData|) + ecsData;
    SpliceOption(packet, found.start, ecsOption);
    return Done;
  }
}
