/** Record types and their codes, as two tables that must be inverse to each other. */
module RrTypes {
  import opened Wire

  datatype RrType =
    | NoType | A | NS | MD | MF | CNAME | SOA | MB | MG | MR | Null | PTR | HINFO | MINFO | MX | TXT
    | RP | AFSDB | X25 | ISDN | RT | NSAPPTR | SIG | KEY | PX | GPOS | AAAA | LOC | NXT | EID
    | NIMLOC | SRV | ATMA | NAPTR | KX | CERT | DNAME | OPT | APL | DS | SSHFP | IPSECKEY | RRSIG
    | NSEC | DNSKEY | DHCID | NSEC3 | NSEC3PARAM | TLSA | SMIMEA | HIP | NINFO | RKEY | TALINK | CDS
    | CDNSKEY | OPENPGPKEY | CSYNC | ZONEMD | SVCB | HTTPS | SPF | UINFO | UID | GID | UNSPEC | NID
    | L32 | L64 | LP | EUI48 | EUI64 | NXNAME | TKEY | TSIG | IXFR | AXFR | MAILB | MAILA | ANY
    | URI | CAA | AVC | AMTRELAY | RESINFO | TA | DLV | Reserved
    | Unknown(code: uint16)

  // The table is cut by code range only to keep each match small.
  function FromLow(code: uint16): RrType {
    match code
    case 0 => NoType
    case 1 => A
    case 2 => NS
    case 3 => MD
    case 4 => MF
    case 5 => CNAME
    case 6 => SOA
    case 7 => MB
    case 8 => MG
    case 9 => MR
    case 10 => Null
    case 12 => PTR
    case 13 => HINFO
    case 14 => MINFO
    case 15 => MX
    case 16 => TXT
    case 17 => RP
    case 18 => AFSDB
    case 19 => X25
    case 20 => ISDN
    case 21 => RT
    case _ => Unknown(code)
  }

  function FromMiddle(code: uint16): RrType {
    match code
    case 23 => NSAPPTR
    case 24 => SIG
    case 25 => KEY
    case 26 => PX
    case 27 => GPOS
    case 28 => AAAA
    case 29 => LOC
    case 30 => NXT
    case 31 => EID
    case 32 => NIMLOC
    case 33 => SRV
    case 34 => ATMA
    case 35 => NAPTR
    case 36 => KX
    case 37 => CERT
    case 39 => DNAME
    case 41 => OPT
    case 42 => APL
    case 43 => DS
    case _ => Unknown(code)
  }

  function FromUpper(code: uint16): RrType {
    match code
    case 44 => SSHFP
    case 45 => IPSECKEY
    case 46 => RRSIG
    case 47 => NSEC
    case 48 => DNSKEY
    case 49 => DHCID
    case 50 => NSEC3
    case 51 => NSEC3PARAM
    case 52 => TLSA
    case 53 => SMIMEA
    case 55 => HIP
    case 56 => NINFO
    case 57 => RKEY
    case 58 => TALINK
    case 59 => CDS
    case 60 => CDNSKEY
    case 61 => OPENPGPKEY
    case 62 => CSYNC
    case 63 => ZONEMD
    case 64 => SVCB
    case 65 => HTTPS
    case _ => Unknown(code)
  }

  function FromHigh(code: uint16): RrType {
    match code
    case 99 => SPF
    case 100 => UINFO
    case 101 => UID
    case 102 => GID
    case 103 => UNSPEC
    case 104 => NID
    case 105 => L32
    case 106 => L64
    case 107 => LP
    case 108 => EUI48
    case 109 => EUI64
    case 128 => NXNAME
    case 249 => TKEY
    case 250 => TSIG
    case 251 => IXFR
    case 252 => AXFR
    case 253 => MAILB
    case 254 => MAILA
    case 255 => ANY
    case 256 => URI
    case 257 => CAA
    case 258 => AVC
    case 260 => AMTRELAY
    case 261 => RESINFO
    case 32768 => TA
    case 32769 => DLV
    case 65535 => Reserved
    case _ => Unknown(code)
  }

  function FromU16(code: uint16): RrType {
    if code <= 21 then FromLow(code)
    else if code <= 43 then FromMiddle(code)
    else if code <= 65 then FromUpper(code)
    else FromHigh(code)
  }

  function ToU16(t: RrType): uint16 {
    match t
    case NoType => 0
    case A => 1
    case NS => 2
    case MD => 3
    case MF => 4
    case CNAME => 5
    case SOA => 6
    case MB => 7
    case MG => 8
    case MR => 9
    case Null => 10
    case PTR => 12
    case HINFO => 13
    case MINFO => 14
    case MX => 15
    case TXT => 16
    case RP => 17
    case AFSDB => 18
    case X25 => 19
    case ISDN => 20
    case RT => 21
    case NSAPPTR => 23
    case SIG => 24
    case KEY => 25
    case PX => 26
    case GPOS => 27
    case AAAA => 28
    case LOC => 29
    case NXT => 30
    case EID => 31
    case NIMLOC => 32
    case SRV => 33
    case ATMA => 34
    case NAPTR => 35
    case KX => 36
    case CERT => 37
    case DNAME => 39
    case OPT => 41
    case APL => 42
    case DS => 43
    case SSHFP => 44
    case IPSECKEY => 45
    case RRSIG => 46
    case NSEC => 47
    case DNSKEY => 48
    case DHCID => 49
    case NSEC3 => 50
    case NSEC3PARAM => 51
    case TLSA => 52
    case SMIMEA => 53
    case HIP => 55
    case NINFO => 56
    case RKEY => 57
    case TALINK => 58
    case CDS => 59
    case CDNSKEY => 60
    case OPENPGPKEY => 61
    case CSYNC => 62
    case ZONEMD => 63
    case SVCB => 64
    case HTTPS => 65
    case SPF => 99
    case UINFO => 100
    case UID => 101
    case GID => 102
    case UNSPEC => 103
    case NID => 104
    case L32 => 105
    case L64 => 106
    case LP => 107
    case EUI48 => 108
    case EUI64 => 109
    case NXNAME => 128
    case TKEY => 249
    case TSIG => 250
    case IXFR => 251
    case AXFR => 252
    case MAILB => 253
    case MAILA => 254
    case ANY => 255
    case URI => 256
    case CAA => 257
    case AVC => 258
    case AMTRELAY => 260
    case RESINFO => 261
    case TA => 32768
    case DLV => 32769
    case Reserved => 65535
    case Unknown(code) => code
  }

  /** A type the decoder can produce: not a known code hidden in `Unknown`. */
  predicate Canonical(t: RrType) {
    t.Unknown? ==> FromU16(t.code) == t
  }

  lemma {:induction false} FromLowRoundTrip(code: uint16)
    ensures ToU16(FromLow(code)) == code
  {
    match FromLow(code)
    case Unknown(c) =>
    case _ =>
  }

  lemma {:induction false} FromMiddleRoundTrip(code: uint16)
    ensures ToU16(FromMiddle(code)) == code
  {
    match FromMiddle(code)
    case Unknown(c) =>
    case _ =>
  }

  lemma {:induction false} FromUpperRoundTrip(code: uint16)
    ensures ToU16(FromUpper(code)) == code
  {
    match FromUpper(code)
    case Unknown(c) =>
    case _ =>
  }

  lemma {:induction false} FromHighRoundTrip(code: uint16)
    ensures ToU16(FromHigh(code)) == code
  {
    match FromHigh(code)
    case Unknown(c) =>
    case _ =>
  }

  lemma {:induction false} CodeRoundTrip(code: uint16)
    ensures ToU16(FromU16(code)) == code
    ensures Canonical(FromU16(code))
  {
    FromLowRoundTrip(code);
    FromMiddleRoundTrip(code);
    FromUpperRoundTrip(code);
    FromHighRoundTrip(code);
    TypeRoundTrip(FromU16(code));
  }

  predicate LowType(t: RrType) {
    t.NoType? || t.A? || t.NS? || t.MD? || t.MF? || t.CNAME? || t.SOA? || t.MB? || t.MG? || t.MR?
    || t.Null? || t.PTR? || t.HINFO? || t.MINFO? || t.MX? || t.TXT? || t.RP? || t.AFSDB? || t.X25?
    || t.ISDN? || t.RT?
  }

  lemma {:induction false} LowTypeRoundTrip(t: RrType)
    requires LowType(t)
    ensures FromLow(ToU16(t)) == t && ToU16(t) <= 21
  {
  }

  lemma {:induction false} Middle1TypeRoundTrip(t: RrType)
    requires !t.Unknown? && 21 < ToU16(t) <= 32
    ensures FromMiddle(ToU16(t)) == t
  {
  }

  lemma {:induction false} Middle2TypeRoundTrip(t: RrType)
    requires !t.Unknown? && 32 < ToU16(t) <= 43
    ensures FromMiddle(ToU16(t)) == t
  {
  }

  lemma {:induction false} Upper1TypeRoundTrip(t: RrType)
    requires !t.Unknown? && 43 < ToU16(t) <= 54
    ensures FromUpper(ToU16(t)) == t
  {
  }

  lemma {:induction false} Upper2TypeRoundTrip(t: RrType)
    requires !t.Unknown? && 54 < ToU16(t) <= 65
    ensures FromUpper(ToU16(t)) == t
  {
  }

  lemma {:induction false} High1TypeRoundTrip(t: RrType)
    requires !t.Unknown? && 65 < ToU16(t) <= 200
    ensures FromHigh(ToU16(t)) == t
  {
  }

  lemma {:induction false} High2TypeRoundTrip(t: RrType)
    requires !t.Unknown? && 200 < ToU16(t)
    ensures FromHigh(ToU16(t)) == t
  {
  }

  lemma {:induction false} LowCodes(t: RrType)
    requires !t.Unknown? && ToU16(t) <= 21
    ensures LowType(t)
  {
    hide FromLow, FromMiddle, FromUpper, FromHigh;
  }

  lemma {:induction false} TypeRoundTrip(t: RrType)
    ensures FromU16(ToU16(t)) == t <==> Canonical(t)
  {
    hide FromLow, FromMiddle, FromUpper, FromHigh, LowType;
    if t.Unknown? {
      assert ToU16(t) == t.code;
    } else if ToU16(t) <= 21 {
      LowCodes(t);
      LowTypeRoundTrip(t);
    } else if ToU16(t) <= 32 {
      Middle1TypeRoundTrip(t);
    } else if ToU16(t) <= 43 {
      Middle2TypeRoundTrip(t);
    } else if ToU16(t) <= 54 {
      Upper1TypeRoundTrip(t);
    } else if ToU16(t) <= 65 {
      Upper2TypeRoundTrip(t);
    } else if ToU16(t) <= 200 {
      High1TypeRoundTrip(t);
    } else {
      High2TypeRoundTrip(t);
    }
  }

  // ---------------------------------------------------------------- the codes by name

  lemma {:induction false} CodesTo21(code: uint16)
    requires code <= 21
    ensures (FromU16(code).NoType? <==> code == 0) && (FromU16(code).A? <==> code == 1)
    ensures (FromU16(code).NS? <==> code == 2) && (FromU16(code).MD? <==> code == 3)
    ensures (FromU16(code).MF? <==> code == 4) && (FromU16(code).CNAME? <==> code == 5)
    ensures (FromU16(code).SOA? <==> code == 6) && (FromU16(code).MB? <==> code == 7)
    ensures (FromU16(code).MG? <==> code == 8) && (FromU16(code).MR? <==> code == 9)
    ensures (FromU16(code).Null? <==> code == 10) && (FromU16(code).PTR? <==> code == 12)
    ensures (FromU16(code).HINFO? <==> code == 13) && (FromU16(code).MINFO? <==> code == 14)
    ensures (FromU16(code).MX? <==> code == 15) && (FromU16(code).TXT? <==> code == 16)
    ensures (FromU16(code).RP? <==> code == 17) && (FromU16(code).AFSDB? <==> code == 18)
    ensures (FromU16(code).X25? <==> code == 19) && (FromU16(code).ISDN? <==> code == 20)
    ensures (FromU16(code).RT? <==> code == 21)
  {
    hide FromMiddle, FromUpper, FromHigh;
  }

  lemma {:induction false} CodesTo43(code: uint16)
    requires 21 < code <= 43
    ensures (FromU16(code).NSAPPTR? <==> code == 23) && (FromU16(code).SIG? <==> code == 24)
    ensures (FromU16(code).KEY? <==> code == 25) && (FromU16(code).PX? <==> code == 26)
    ensures (FromU16(code).GPOS? <==> code == 27) && (FromU16(code).AAAA? <==> code == 28)
    ensures (FromU16(code).LOC? <==> code == 29) && (FromU16(code).NXT? <==> code == 30)
    ensures (FromU16(code).EID? <==> code == 31) && (FromU16(code).NIMLOC? <==> code == 32)
    ensures (FromU16(code).SRV? <==> code == 33) && (FromU16(code).ATMA? <==> code == 34)
    ensures (FromU16(code).NAPTR? <==> code == 35) && (FromU16(code).KX? <==> code == 36)
    ensures (FromU16(code).CERT? <==> code == 37) && (FromU16(code).DNAME? <==> code == 39)
    ensures (FromU16(code).OPT? <==> code == 41) && (FromU16(code).APL? <==> code == 42)
    ensures (FromU16(code).DS? <==> code == 43)
  {
    hide FromLow, FromUpper, FromHigh;
  }

  lemma {:induction false} CodesTo65(code: uint16)
    requires 43 < code <= 65
    ensures (FromU16(code).SSHFP? <==> code == 44) && (FromU16(code).IPSECKEY? <==> code == 45)
    ensures (FromU16(code).RRSIG? <==> code == 46) && (FromU16(code).NSEC? <==> code == 47)
    ensures (FromU16(code).DNSKEY? <==> code == 48) && (FromU16(code).DHCID? <==> code == 49)
    ensures (FromU16(code).NSEC3? <==> code == 50) && (FromU16(code).NSEC3PARAM? <==> code == 51)
    ensures (FromU16(code).TLSA? <==> code == 52) && (FromU16(code).SMIMEA? <==> code == 53)
    ensures (FromU16(code).HIP? <==> code == 55) && (FromU16(code).NINFO? <==> code == 56)
    ensures (FromU16(code).RKEY? <==> code == 57) && (FromU16(code).TALINK? <==> code == 58)
    ensures (FromU16(code).CDS? <==> code == 59) && (FromU16(code).CDNSKEY? <==> code == 60)
    ensures (FromU16(code).OPENPGPKEY? <==> code == 61) && (FromU16(code).CSYNC? <==> code == 62)
    ensures (FromU16(code).ZONEMD? <==> code == 63) && (FromU16(code).SVCB? <==> code == 64)
    ensures (FromU16(code).HTTPS? <==> code == 65)
  {
    hide FromLow, FromMiddle, FromHigh;
  }

  lemma {:induction false} CodesTo65535(code: uint16)
    requires 65 < code
    ensures (FromU16(code).SPF? <==> code == 99) && (FromU16(code).UINFO? <==> code == 100)
    ensures (FromU16(code).UID? <==> code == 101) && (FromU16(code).GID? <==> code == 102)
    ensures (FromU16(code).UNSPEC? <==> code == 103) && (FromU16(code).NID? <==> code == 104)
    ensures (FromU16(code).L32? <==> code == 105) && (FromU16(code).L64? <==> code == 106)
    ensures (FromU16(code).LP? <==> code == 107) && (FromU16(code).EUI48? <==> code == 108)
    ensures (FromU16(code).EUI64? <==> code == 109) && (FromU16(code).NXNAME? <==> code == 128)
    ensures (FromU16(code).TKEY? <==> code == 249) && (FromU16(code).TSIG? <==> code == 250)
    ensures (FromU16(code).IXFR? <==> code == 251) && (FromU16(code).AXFR? <==> code == 252)
    ensures (FromU16(code).MAILB? <==> code == 253) && (FromU16(code).MAILA? <==> code == 254)
    ensures (FromU16(code).ANY? <==> code == 255) && (FromU16(code).URI? <==> code == 256)
    ensures (FromU16(code).CAA? <==> code == 257) && (FromU16(code).AVC? <==> code == 258)
    ensures (FromU16(code).AMTRELAY? <==> code == 260) && (FromU16(code).RESINFO? <==> code == 261)
    ensures (FromU16(code).TA? <==> code == 32768) && (FromU16(code).DLV? <==> code == 32769)
    ensures (FromU16(code).Reserved? <==> code == 65535)
  {
    hide FromLow, FromMiddle, FromUpper;
  }

  /** A code is read as a type exactly when it is that type's code. */
  lemma {:induction false} ReadAsIff(code: uint16, t: RrType)
    requires Canonical(t)
    ensures FromU16(code) == t <==> code == ToU16(t)
  {
    hide FromU16, ToU16;
    CodeRoundTrip(code);
    TypeRoundTrip(t);
  }

  /** The two address types, in code numbers. */
  lemma {:induction false} AddressCodes(code: uint16)
    ensures FromU16(code).A? <==> code == 1
    ensures FromU16(code).AAAA? <==> code == 28
  {
    hide FromU16;
    AddressTypes();
    ReadAsIff(code, A);
    ReadAsIff(code, AAAA);
  }

  lemma {:induction false} AddressTypes()
    ensures Canonical(A) && ToU16(A) == 1 && Canonical(AAAA) && ToU16(AAAA) == 28
  {
  }
}
