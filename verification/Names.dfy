/**
  Domain names on the wire (sections 3.1 and 4.1.4 of RFC 1035).

  The program decodes or skips names with five separate loops.  Each loop is a method here,
  proved equal to a recursive specification; the lemmas at the end relate the five.
 */
module Names {
  import opened Wire

  type Labels = seq<Bytes>
  /** The labels of a name and the offset at which the message continues after it. */
  datatype Decoded = Decoded(labels: Labels, next: nat)

  const MAX_NAME_OCTETS := 255
  const MAX_POINTERS := 128
  const MAX_HOSTNAME := 256
  const DOT: byte := 46

  datatype MsgError =
    | ShortPacket
    | InvalidName
    | CompressionLoop
    | InvalidLabelLength
    | InvalidRecord
    | TrailingBytes
    | RdataTooLong

  /** One constructor for each message the packet editors fail with. */
  datatype DnsError =
    | TooShort
    | TooLarge
    | NoQuestion
    | IncompleteOffset
    | LongLabel
    | NameOutOfBounds
    | NameTooLong
    | RecordOutOfBounds
    | DuplicateOpt
    | TooManyAdditional
    | NoRoomForRecord
    | Garbage
    | EdnsOutOfRange
    | EdnsTooLarge
    | NoOptRecord
    | IncompleteRecord

  /** Where the message continues: after the name as read in line, or after its first pointer. */
  datatype Resumption = Inline | JumpedAt(next: nat) {
    function Or(inline: nat): nat {
      if Inline? then inline else next
    }
  }

  function PointerTarget(p: Bytes, o: nat): (t: nat)
    requires o + 1 < |p| && p[o] >= 0xC0
    ensures t < 0x4000
  {
    (p[o] as int - 0xC0) * 256 + p[o + 1] as int
  }

  // ---------------------------------------------------------------- Name::from_wire

  /**
    The labels read from `cur` and the offset at which the enclosing message continues, for a
    decoder that has followed `ptrs` pointers and counted `wlen` octets of name so far.
   */
  function Decode(p: Bytes, cur: nat, ptrs: nat, wlen: nat): (r: Result<Decoded, MsgError>)
    requires ptrs <= MAX_POINTERS
    ensures r.Ok? ==> cur < r.value.next <= |p|
    decreases MAX_POINTERS - ptrs, |p| - cur
  {
    if cur >= |p| then Err(ShortPacket)
    else if p[cur] >= 0xC0 then
      if cur + 1 >= |p| then Err(ShortPacket)
      else if PointerTarget(p, cur) >= |p| then Err(InvalidName)
      else if ptrs + 1 > MAX_POINTERS then Err(CompressionLoop)
      else
        var rest :- Decode(p, PointerTarget(p, cur), ptrs + 1, wlen);
        Ok(Decoded(rest.labels, cur + 2))
    else if p[cur] >= 0x40 then Err(InvalidLabelLength)
    else if p[cur] == 0 then Ok(Decoded([], cur + 1))
    else
      var end := cur + 1 + p[cur] as int;
      if end > |p| then Err(ShortPacket)
      else if wlen + 1 + p[cur] as int > MAX_NAME_OCTETS then Err(InvalidName)
      else
        var rest :- Decode(p, end, ptrs, wlen + 1 + p[cur] as int);
        Ok(Decoded([p[cur + 1..end]] + rest.labels, rest.next))
  }

  function DecodeName(p: Bytes, o: nat): (r: Result<Decoded, MsgError>)
    ensures r.Ok? ==> o < r.value.next <= |p|
  {
    Decode(p, o, 0, 1)
  }

  /** The decoder's variables after some iterations. */
  datatype DecodeState = DecodeState(current: nat, pointers: nat, wireLen: nat, consumed: Resumption, labels: Labels)

  ghost predicate DecodeInv(p: Bytes, offset: nat, s: DecodeState) {
    && s.pointers <= MAX_POINTERS
    && DecodeName(p, offset)
    == match Decode(p, s.current, s.pointers, s.wireLen)
       case Ok(d) => Ok(Decoded(s.labels + d.labels, s.consumed.Or(d.next)))
       case Err(e) => Err(e)
  }

  lemma {:induction false} DecodeStart(p: Bytes, offset: nat)
    ensures DecodeInv(p, offset, DecodeState(offset, 0, 1, Inline, []))
  {
    var all := DecodeName(p, offset);
    assert all.Ok? ==> [] + all.value.labels == all.value.labels;
  }

  lemma {:induction false} DecodeLabel(p: Bytes, offset: nat, s: DecodeState, end: nat, piece: Bytes)
    requires DecodeInv(p, offset, s)
    requires s.current < |p| && 0 < p[s.current] < 0x40 && end == s.current + 1 + p[s.current] as int <= |p|
    requires s.wireLen + end - s.current <= MAX_NAME_OCTETS && piece == p[s.current + 1..end]
    ensures DecodeInv(p, offset,
        s.(current := end, wireLen := s.wireLen + end - s.current, labels := s.labels + [piece]))
  {
    var rest := Decode(p, end, s.pointers, s.wireLen + end - s.current);
    if rest.Ok? {
      ConcatAssoc(s.labels, [piece], rest.value.labels);
    }
  }

  lemma {:induction false} DecodePointer(p: Bytes, offset: nat, s: DecodeState)
    requires DecodeInv(p, offset, s)
    requires s.current + 1 < |p| && p[s.current] >= 0xC0 && PointerTarget(p, s.current) < |p|
        && s.pointers < MAX_POINTERS
    ensures DecodeInv(p, offset, s.(current := PointerTarget(p, s.current), pointers := s.pointers + 1,
                                    consumed := JumpedAt(s.consumed.Or(s.current + 2))))
  {
  }

  lemma {:induction false} DecodeRoot(p: Bytes, offset: nat, s: DecodeState)
    requires DecodeInv(p, offset, s) && s.current < |p| && p[s.current] == 0
    ensures DecodeName(p, offset) == Ok(Decoded(s.labels, s.consumed.Or(s.current + 1)))
  {
    assert s.labels + [] == s.labels;
  }

  /** The error the decoder returns from its present position, if it returns one there. */
  function StopError(p: Bytes, s: DecodeState): Option<MsgError> {
    if s.current >= |p| then Some(ShortPacket)
    else if p[s.current] >= 0xC0 then
      if s.current + 1 >= |p| then Some(ShortPacket)
      else if PointerTarget(p, s.current) >= |p| then Some(InvalidName)
      else if s.pointers >= MAX_POINTERS then Some(CompressionLoop)
      else None
    else if p[s.current] >= 0x40 then Some(InvalidLabelLength)
    else if s.current + 1 + p[s.current] as int > |p| then Some(ShortPacket)
    else if p[s.current] > 0 && s.wireLen + 1 + p[s.current] as int > MAX_NAME_OCTETS then Some(InvalidName)
    else None
  }

  lemma {:induction false} DecodeStops(p: Bytes, offset: nat, s: DecodeState)
    requires DecodeInv(p, offset, s) && StopError(p, s).Some?
    ensures DecodeName(p, offset) == Err(StopError(p, s).value)
  {
  }

  method FromWire(p: Bytes, offset: nat) returns (r: Result<Decoded, MsgError>)
    ensures r == DecodeName(p, offset)
  {
    var labels: Labels := [];
    var current: nat := offset;
    var consumed: Resumption := Inline;
    var pointers: nat := 0;
    var wireLen: nat := 1;
    DecodeStart(p, offset);
    assert DecodeInv(p, offset, DecodeState(current, pointers, wireLen, consumed, labels));
    hide DecodeInv, DecodeName, Decode;
    while true
      invariant pointers <= MAX_POINTERS
      invariant DecodeInv(p, offset, DecodeState(current, pointers, wireLen, consumed, labels))
      decreases MAX_POINTERS - pointers, |p| - current
    {
      ghost var s := DecodeState(current, pointers, wireLen, consumed, labels);
      if StopError(p, s).Some? {
        DecodeStops(p, offset, s);
      }
      if current >= |p| {
        return Err(ShortPacket);
      }
      var len := p[current] as int;
      if len >= 0xC0 {
        if current + 1 >= |p| {
          return Err(ShortPacket);
        }
        var ptr := (len - 0xC0) * 256 + p[current + 1] as int;
        if ptr >= |p| {
          return Err(InvalidName);
        }
        if consumed.Inline? {
          consumed := JumpedAt(current + 2);
        }
        pointers := pointers + 1;
        if pointers > MAX_POINTERS {
          return Err(CompressionLoop);
        }
        current := ptr;
        DecodePointer(p, offset, s);
      } else if len < 0x40 {
        current := current + 1;
        if len == 0 {
          DecodeRoot(p, offset, s);
          return Ok(Decoded(labels, consumed.Or(current)));
        }
        var end := current + len;
        if end > |p| {
          return Err(ShortPacket);
        }
        wireLen := wireLen + 1 + len;
        if wireLen > MAX_NAME_OCTETS {
          return Err(InvalidName);
        }
        var piece := p[current..end];
        labels := labels + [piece];
        current := end;
        DecodeLabel(p, offset, s, end, piece);
      } else {
        return Err(InvalidLabelLength);
      }
    }
  }

  // ---------------------------------------------------------------- Name::skip_wire

  function Skip(p: Bytes, o: nat): (r: Result<nat, MsgError>)
    ensures r.Ok? ==> o < r.value <= |p|
    decreases |p| - o
  {
    if o >= |p| then Err(ShortPacket)
    else if p[o] >= 0xC0 then if o + 1 >= |p| then Err(ShortPacket) else Ok(o + 2)
    else if p[o] >= 0x40 then Err(InvalidLabelLength)
    else if p[o] == 0 then Ok(o + 1)
    else if o + 1 + p[o] as int > |p| then Err(ShortPacket)
    else Skip(p, o + 1 + p[o] as int)
  }

  method SkipWire(p: Bytes, offset: nat) returns (r: Result<nat, MsgError>)
    ensures r == Skip(p, offset)
  {
    var current: nat := offset;
    while true
      invariant Skip(p, current) == Skip(p, offset)
      decreases |p| - current
    {
      if current >= |p| {
        return Err(ShortPacket);
      }
      var len := p[current] as int;
      if len >= 0xC0 {
        if current + 1 >= |p| {
          return Err(ShortPacket);
        }
        return Ok(current + 2);
      } else if len < 0x40 {
        current := current + 1 + len;
        if len == 0 {
          return Ok(current);
        }
        if current > |p| {
          return Err(ShortPacket);
        }
      } else {
        return Err(InvalidLabelLength);
      }
    }
  }

  // ---------------------------------------------------------------- dns::skip_name

  function SkipNameFrom(p: Bytes, o: nat, qlen: nat): (r: Result<nat, DnsError>)
    requires o < |p|
    ensures r.Ok? ==> o < r.value <= |p|
    decreases |p| - o
  {
    var len := p[o] as int;
    if len >= 0xC0 then if |p| - o < 2 then Err(IncompleteOffset) else Ok(o + 2)
    else if len >= 0x40 then Err(LongLabel)
    else if |p| - o - 1 <= len then Err(NameOutOfBounds)
    else if qlen + len + 1 > MAX_HOSTNAME then Err(NameTooLong)
    else if len == 0 then Ok(o + 1)
    else SkipNameFrom(p, o + len + 1, qlen + len + 1)
  }

  /** The source computes `packet_len - 1` on an unsigned length, so its callers hold a non-empty packet. */
  function SkipName(p: Bytes, o: nat): (r: Result<nat, DnsError>)
    requires |p| > 0
    ensures r.Ok? ==> o < r.value <= |p|
  {
    if o >= |p| - 1 then Err(TooShort) else SkipNameFrom(p, o, 0)
  }

  method SkipNameLoop(p: Bytes, start: nat) returns (r: Result<nat, DnsError>)
    requires |p| > 0
    ensures r == SkipName(p, start)
  {
    if start >= |p| - 1 {
      return Err(TooShort);
    }
    var offset: nat := start;
    var qnameLen: nat := 0;
    while true
      invariant offset < |p|
      invariant SkipNameFrom(p, offset, qnameLen) == SkipName(p, start)
      decreases |p| - offset
    {
      var labelLen := p[offset] as int;
      if labelLen >= 0xC0 {
        if |p| - offset < 2 {
          return Err(IncompleteOffset);
        }
        return Ok(offset + 2);
      }
      if labelLen >= 0x40 {
        return Err(LongLabel);
      }
      if |p| - offset - 1 <= labelLen {
        return Err(NameOutOfBounds);
      }
      qnameLen := qnameLen + labelLen + 1;
      if qnameLen > MAX_HOSTNAME {
        return Err(NameTooLong);
      }
      offset := offset + labelLen + 1;
      if labelLen == 0 {
        return Ok(offset);
      }
    }
  }

  // ---------------------------------------------------------------- text of a name

  /** A name as text and the offset at which the message continues after it. */
  datatype Text = Text(bytes: Bytes, next: nat)

  function JoinDots(labels: Labels): (text: Bytes) {
    if |labels| == 0 then []
    else if |labels| == 1 then labels[0]
    else JoinDots(labels[..|labels| - 1]) + [DOT] + labels[|labels| - 1]
  }

  lemma {:induction false} JoinSnoc(labels: Labels, last: Bytes)
    ensures JoinDots(labels + [last]) == if |labels| == 0 then last else JoinDots(labels) + [DOT] + last
  {
    assert (labels + [last])[..|labels|] == labels;
  }

  function Lower(b: byte): byte {
    if 65 <= b <= 90 then b + 32 else b
  }

  function LowerAll(s: Bytes): (r: Bytes)
    ensures |r| == |s|
  {
    seq(|s|, i requires 0 <= i < |s| => Lower(s[i]))
  }

  /** 'A' to 'Z' become 'a' to 'z', every other octet stays. */
  lemma {:induction false} LowerOctets(s: Bytes, i: nat)
    requires i < |s|
    ensures 65 <= s[i] <= 90 ==> LowerAll(s)[i] == s[i] + 32
    ensures s[i] < 65 || s[i] > 90 ==> LowerAll(s)[i] == s[i]
  {
  }

  lemma {:induction false} LowerAllConcat(a: Bytes, b: Bytes)
    ensures LowerAll(a + b) == LowerAll(a) + LowerAll(b)
  {
  }

  // ---------------------------------------------------------------- parse_dns_name_lower

  /** Labels and continuation for the bootstrap parser, which has jumped `jumps` times. */
  function LowerFrom(p: Bytes, cur: nat, jumps: nat): (r: Option<Decoded>)
    requires jumps <= |p|
    ensures r.Some? ==> cur < r.value.next <= |p|
    decreases |p| - jumps, |p| - cur
  {
    if cur >= |p| then None
    else if p[cur] >= 0xC0 then
      if cur + 1 >= |p| || PointerTarget(p, cur) >= |p| || jumps + 1 > |p| then None
      else
        match LowerFrom(p, PointerTarget(p, cur), jumps + 1)
        case Some(rest) => Some(Decoded(rest.labels, cur + 2))
        case None => None
    else if p[cur] >= 0x40 then None
    else if p[cur] == 0 then Some(Decoded([], cur + 1))
    else
      var end := cur + 1 + p[cur] as int;
      if end > |p| then None
      else
        match LowerFrom(p, end, jumps)
        case Some(rest) => Some(Decoded([p[cur + 1..end]] + rest.labels, rest.next))
        case None => None
  }

  /** Lower-cased text of a name, with the dot that stands for the root at its end. */
  function LowerText(labels: Labels): Bytes {
    LowerAll(JoinDots(labels)) + [DOT]
  }

  function LowerName(p: Bytes, o: nat): (r: Option<Text>)
    ensures r.Some? ==> o < r.value.next <= |p|
  {
    match LowerFrom(p, o, 0)
    case Some(d) => Some(Text(LowerText(d.labels), d.next))
    case None => None
  }

  lemma {:induction false} LowerSnoc(labels: Labels, last: Bytes)
    ensures LowerAll(JoinDots(labels + [last]))
         == if |labels| == 0 then LowerAll(last) else LowerAll(JoinDots(labels)) + [DOT] + LowerAll(last)
  {
    JoinSnoc(labels, last);
    if |labels| > 0 {
      LowerAllConcat(JoinDots(labels) + [DOT], last);
      LowerAllConcat(JoinDots(labels), [DOT]);
      assert LowerAll([DOT]) == [DOT];
    }
  }

  /** The parser's variables after some iterations, `labels` being what it has read. */
  datatype LowerState = LowerState(
    cursor: nat, jumps: nat, jumped: bool, nextOffset: nat, firstLabel: bool, name: Bytes, labels: Labels)

  ghost predicate LowerInv(p: Bytes, start: nat, s: LowerState) {
    && s.jumps <= |p|
    && s.firstLabel == (|s.labels| == 0)
    && s.name == LowerAll(JoinDots(s.labels))
    && LowerFrom(p, start, 0)
    == match LowerFrom(p, s.cursor, s.jumps)
       case Some(d) => Some(Decoded(s.labels + d.labels, if s.jumped then s.nextOffset else d.next))
       case None => None
  }

  lemma {:induction false} LowerStart(p: Bytes, start: nat)
    ensures LowerInv(p, start, LowerState(start, 0, false, start, true, [], []))
  {
    assert LowerAll(JoinDots([])) == [];
    var all := LowerFrom(p, start, 0);
    assert all.Some? ==> [] + all.value.labels == all.value.labels;
  }

  lemma {:induction false} LowerLabelStep(p: Bytes, start: nat, s: LowerState, end: nat, piece: Bytes, name: Bytes)
    requires LowerInv(p, start, s)
    requires s.cursor < |p| && 0 < p[s.cursor] < 0x40 && end == s.cursor + 1 + p[s.cursor] as int <= |p|
    requires piece == p[s.cursor + 1..end]
    requires name == if s.firstLabel then LowerAll(piece) else s.name + [DOT] + LowerAll(piece)
    ensures LowerInv(p, start, s.(cursor := end, firstLabel := false, name := name, labels := s.labels + [piece]))
  {
    hide JoinDots, LowerAll;
    LowerSnoc(s.labels, piece);
    var rest := LowerFrom(p, end, s.jumps);
    if rest.Some? {
      ConcatAssoc(s.labels, [piece], rest.value.labels);
    }
  }

  lemma {:induction false} LowerPointerStep(p: Bytes, start: nat, s: LowerState)
    requires LowerInv(p, start, s) && s.cursor + 1 < |p| && p[s.cursor] >= 0xC0
    requires PointerTarget(p, s.cursor) < |p| && s.jumps < |p|
    ensures LowerInv(p, start, s.(cursor := PointerTarget(p, s.cursor), jumps := s.jumps + 1, jumped := true,
                                  nextOffset := if s.jumped then s.nextOffset else s.cursor + 2))
  {
  }

  lemma {:induction false} LowerRoot(p: Bytes, start: nat, s: LowerState)
    requires LowerInv(p, start, s) && s.cursor < |p| && p[s.cursor] == 0
    ensures LowerName(p, start) == Some(Text(s.name + [DOT], if s.jumped then s.nextOffset else s.cursor + 1))
  {
    assert s.labels + [] == s.labels;
  }

  lemma {:induction false} LowerFails(p: Bytes, start: nat, s: LowerState)
    requires LowerInv(p, start, s)
    requires s.cursor >= |p| || 0x40 <= p[s.cursor] < 0xC0
          || (0 < p[s.cursor] < 0x40 && s.cursor + 1 + p[s.cursor] as int > |p|)
          || (p[s.cursor] >= 0xC0 && (s.cursor + 1 >= |p| || PointerTarget(p, s.cursor) >= |p| || s.jumps == |p|))
    ensures LowerName(p, start) == None
  {
  }

  method PushLower(name: Bytes, piece: Bytes) returns (r: Bytes)
    ensures r == name + LowerAll(piece)
  {
    r := name;
    for i := 0 to |piece|
      invariant r == name + LowerAll(piece[..i])
    {
      r := r + [Lower(piece[i])];
    }
    assert piece[..|piece|] == piece;
  }

  method ParseDnsNameLower(p: Bytes, start: nat) returns (r: Option<Text>)
    ensures r == LowerName(p, start)
  {
    if start >= |p| {
      return None;
    }
    var cursor: nat := start;
    var nextOffset: nat := start;
    var jumped := false;
    var jumpCount: nat := 0;
    var firstLabel := true;
    var name: Bytes := [];
    ghost var labels: Labels := [];
    LowerStart(p, start);
    assert LowerInv(p, start, LowerState(cursor, jumpCount, jumped, nextOffset, firstLabel, name, labels));
    hide LowerInv, LowerName, LowerAll, JoinDots, LowerFrom;
    while true
      invariant jumpCount <= |p|
      invariant firstLabel ==> name == []
      invariant LowerInv(p, start, LowerState(cursor, jumpCount, jumped, nextOffset, firstLabel, name, labels))
      decreases |p| - jumpCount, |p| - cursor
    {
      ghost var s := LowerState(cursor, jumpCount, jumped, nextOffset, firstLabel, name, labels);
      if cursor >= |p| {
        LowerFails(p, start, s);
        return None;
      }
      var len := p[cursor] as int;
      if len >= 0xC0 {
        if |p| - cursor < 2 {
          LowerFails(p, start, s);
          return None;
        }
        var ptr := (len - 0xC0) * 256 + p[cursor + 1] as int;
        if ptr >= |p| {
          LowerFails(p, start, s);
          return None;
        }
        if !jumped {
          nextOffset := cursor + 2;
          jumped := true;
        }
        cursor := ptr;
        jumpCount := jumpCount + 1;
        if jumpCount > |p| {
          LowerFails(p, start, s);
          return None;
        }
        LowerPointerStep(p, start, s);
      } else if len < 0x40 {
        cursor := cursor + 1;
        if len == 0 {
          LowerRoot(p, start, s);
          if !jumped {
            nextOffset := cursor;
          }
          name := name + [DOT];
          return Some(Text(name, nextOffset));
        }
        if |p| - cursor < len {
          LowerFails(p, start, s);
          return None;
        }
        var piece := p[cursor..cursor + len];
        if !firstLabel {
          name := name + [DOT];
        }
        firstLabel := false;
        name := PushLower(name, piece);
        labels := labels + [piece];
        cursor := cursor + len;
        assert s.firstLabel ==> name == LowerAll(piece);
        LowerLabelStep(p, start, s, cursor, piece, name);
      } else {
        LowerFails(p, start, s);
        return None;
      }
    }
  }

  // ---------------------------------------------------------------- dns_json::parse_name

  datatype JsonResult = OutOfSteps | Failed | Parsed(labels: Labels, next: nat)

  /** `steps` iterations of the JSON parser's loop from offset `o`; it neither bounds jumps nor checks label lengths. */
  function JsonFrom(p: Bytes, o: nat, steps: nat): (r: JsonResult)
    decreases steps
  {
    if steps == 0 then OutOfSteps
    else if o >= |p| then Failed
    else if p[o] >= 0xC0 then
      if o + 1 >= |p| then Failed
      else
        match JsonFrom(p, PointerTarget(p, o), steps - 1)
        case Parsed(labels, _) => Parsed(labels, o + 2)
        case other => other
    else if p[o] == 0 then Parsed([], o + 1)
    else
      var end := o + 1 + p[o] as int;
      if end > |p| then Failed
      else
        match JsonFrom(p, end, steps - 1)
        case Parsed(labels, next) => Parsed([p[o + 1..end]] + labels, next)
        case other => other
  }

  /** The parser returns when started at `o`; by JsonHaltsIffBounded this is whether it ever does. */
  predicate JsonHalts(p: Bytes, o: nat) {
    JsonFrom(p, o, |p| + 1) != OutOfSteps
  }

  /** The parser's variables after some iterations, with `steps` of its allowance left. */
  datatype JsonState = JsonState(offset: nat, steps: nat, jumped: bool, jumpOffset: nat, name: Bytes, labels: Labels)

  ghost predicate JsonInv(p: Bytes, start: nat, s: JsonState) {
    && JsonFrom(p, s.offset, s.steps) != OutOfSteps
    && s.name == JoinDots(s.labels)
    && (|s.name| == 0 <==> |s.labels| == 0)
    && JsonFrom(p, start, |p| + 1)
    == match JsonFrom(p, s.offset, s.steps)
       case Parsed(labels, next) => Parsed(s.labels + labels, if s.jumped then s.jumpOffset else next)
       case other => other
  }

  /** What the method returns, as a function of the specification's outcome. */
  function JsonText(r: JsonResult): Option<Text> {
    match r
    case Parsed(labels, next) => Some(Text(JoinDots(labels), next))
    case _ => None
  }

  lemma {:induction false} JsonStart(p: Bytes, start: nat, jumpOffset: nat)
    requires JsonHalts(p, start)
    ensures JsonInv(p, start, JsonState(start, |p| + 1, false, jumpOffset, [], []))
  {
    var all := JsonFrom(p, start, |p| + 1);
    assert all.Parsed? ==> [] + all.labels == all.labels;
  }

  lemma {:induction false} JsonLabelMove(p: Bytes, o: nat, steps: nat, end: nat, piece: Bytes)
    requires o < |p| && 0 < p[o] < 0xC0 && end == o + 1 + p[o] as int <= |p| && piece == p[o + 1..end]
    requires JsonFrom(p, o, steps) != OutOfSteps
    ensures steps > 0
    ensures JsonFrom(p, o, steps) == match JsonFrom(p, end, steps - 1)
                                     case Parsed(labels, next) => Parsed([piece] + labels, next)
                                     case other => other
  {
  }

  lemma {:induction false} JsonLabel(p: Bytes, start: nat, s: JsonState, end: nat, piece: Bytes, name: Bytes)
    requires JsonInv(p, start, s)
    requires s.offset < |p| && 0 < p[s.offset] < 0xC0 && end == s.offset + 1 + p[s.offset] as int <= |p|
    requires piece == p[s.offset + 1..end]
    requires name == if |s.name| == 0 then piece else s.name + [DOT] + piece
    ensures s.steps > 0
    ensures JsonInv(p, start, s.(offset := end, steps := s.steps - 1, name := name, labels := s.labels + [piece]))
  {
    hide JoinDots, JsonFrom;
    JsonLabelMove(p, s.offset, s.steps, end, piece);
    JoinSnoc(s.labels, piece);
    var rest := JsonFrom(p, end, s.steps - 1);
    if rest.Parsed? {
      ConcatAssoc(s.labels, [piece], rest.labels);
    }
  }

  lemma {:induction false} JsonPointer(p: Bytes, start: nat, s: JsonState)
    requires JsonInv(p, start, s) && s.offset + 1 < |p| && p[s.offset] >= 0xC0
    ensures s.steps > 0
    ensures JsonInv(p, start, s.(offset := PointerTarget(p, s.offset), steps := s.steps - 1, jumped := true,
                                 jumpOffset := if s.jumped then s.jumpOffset else s.offset + 2))
  {
  }

  lemma {:induction false} JsonRoot(p: Bytes, start: nat, s: JsonState)
    requires JsonInv(p, start, s) && s.offset < |p| && p[s.offset] == 0
    ensures JsonText(JsonFrom(p, start, |p| + 1))
         == Some(Text(s.name, if s.jumped then s.jumpOffset else s.offset + 1))
  {
    assert s.labels + [] == s.labels;
  }

  lemma {:induction false} JsonFails(p: Bytes, start: nat, s: JsonState)
    requires JsonInv(p, start, s)
    requires s.offset >= |p| || (p[s.offset] >= 0xC0 && s.offset + 1 >= |p|)
          || (0 < p[s.offset] < 0xC0 && s.offset + 1 + p[s.offset] as int > |p|)
    ensures JsonText(JsonFrom(p, start, |p| + 1)) == None
  {
  }

  method ParseNameJson(p: Bytes, start: nat) returns (r: Option<Text>)
    requires JsonHalts(p, start)
    ensures r == JsonText(JsonFrom(p, start, |p| + 1))
  {
    hide JsonInv, JsonFrom, JsonText, JoinDots, JsonHalts;
    var offset: nat := start;
    var name: Bytes := [];
    var jumped := false;
    var jumpOffset: nat := 0;
    ghost var labels: Labels := [];
    ghost var steps: nat := |p| + 1;
    JsonStart(p, start, jumpOffset);
    assert JsonInv(p, start, JsonState(offset, steps, jumped, jumpOffset, name, labels));
    while true
      invariant JsonInv(p, start, JsonState(offset, steps, jumped, jumpOffset, name, labels))
      decreases steps
    {
      ghost var s := JsonState(offset, steps, jumped, jumpOffset, name, labels);
      if offset >= |p| {
        JsonFails(p, start, s);
        return None;
      }
      var len := p[offset] as int;
      if len >= 0xC0 {
        if offset + 1 >= |p| {
          JsonFails(p, start, s);
          return None;
        }
        JsonPointer(p, start, s);
        if !jumped {
          jumpOffset := offset + 2;
        }
        offset := (len - 0xC0) * 256 + p[offset + 1] as int;
        jumped := true;
      } else {
        offset := offset + 1;
        if len == 0 {
          JsonRoot(p, start, s);
          return Some(Text(name, if jumped then jumpOffset else offset));
        }
        if |name| > 0 {
          name := name + [DOT];
        }
        if offset + len > |p| {
          JsonFails(p, start, s);
          return None;
        }
        var piece := p[offset..offset + len];
        name := name + piece;
        labels := labels + [piece];
        offset := offset + len;
        assert |s.name| == 0 ==> name == piece;
        JsonLabel(p, start, s, offset, piece, name);
      }
      steps := steps - 1;
    }
  }
}
