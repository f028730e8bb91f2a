/** Subnet insertion is a structure-preserving splice. */
module EcsTheorems {
  import opened Wire
  import opened Names
  import opened Layout
  import opened EdnsTheorems
  import opened Ecs

  // ---------------------------------------------------------------- EDNS options

  datatype EdnsOption = EdnsOption(code: uint16, data: Bytes)

  /** The options that fill the packet exactly from `o` to `end` (section 6.1.2 of RFC 6891), if they do. */
  function OptionsAt(p: Bytes, o: nat, end: nat): (r: Option<seq<EdnsOption>>)
    requires end <= |p|
    decreases |p|, if o < end then end - o else 0
  {
    if o == end then Some([])
    else if o + 4 > end then None
    else
      var next := o + 4 + U16(p, o + 2) as int;
      if next > end then None
      else
        match OptionsAt(p, next, end)
        case None => None
        case Some(rest) => Some([EdnsOption(U16(p, o), p[o + 4..next])] + rest)
  }

  ghost predicate HasSubnet(options: seq<EdnsOption>) {
    exists i :: 0 <= i < |options| && options[i].code == OPTION_SUBNET
  }

  lemma {:induction false} HasSubnetCons(first: EdnsOption, rest: seq<EdnsOption>)
    ensures HasSubnet([first] + rest) <==> first.code == OPTION_SUBNET || HasSubnet(rest)
  {
    var all := [first] + rest;
    assert all[0] == first;
    if HasSubnet(rest) {
      var i :| 0 <= i < |rest| && rest[i].code == OPTION_SUBNET;
      assert all[i + 1].code == OPTION_SUBNET;
    }
    if HasSubnet(all) && first.code != OPTION_SUBNET {
      var i :| 0 <= i < |all| && all[i].code == OPTION_SUBNET;
      assert rest[i - 1].code == OPTION_SUBNET;
    }
  }

  /** On well-formed options the source's scan finds an option 8 exactly when there is one. */
  lemma {:induction false} ScanFindsSubnet(p: Bytes, data: nat, rdlength: nat, o: nat)
    requires data + rdlength <= |p| && o <= rdlength && OptionsAt(p, data + o, data + rdlength).Some?
    ensures HasEcs(p, data, rdlength, o) <==> HasSubnet(OptionsAt(p, data + o, data + rdlength).value)
    decreases rdlength - o
  {
    hide HasSubnet;
    if o == rdlength {
      NoOptions();
    } else {
      var at := data + o;
      var next := at + 4 + U16(p, at + 2) as int;
      ScanFindsSubnet(p, data, rdlength, next - data);
      HasSubnetCons(EdnsOption(U16(p, at), p[at + 4..next]), OptionsAt(p, next, data + rdlength).value);
    }
  }

  lemma {:induction false} NoOptions()
    ensures !HasSubnet([])
  {
  }

  lemma {:induction false} FieldMoved(p: Bytes, o: nat, end: nat, q: Bytes, o': nat, i: nat)
    requires o <= i && i + 2 <= end <= |p| && At(q, o', p[o..end])
    ensures i - o + o' + 2 <= |q| && U16(q, i - o + o') == U16(p, i)
  {
    var part := p[o..end];
    assert q[i - o + o'] == q[o'..o' + |part|][i - o] == p[i];
    assert q[i - o + o' + 1] == q[o'..o' + |part|][i + 1 - o] == p[i + 1];
  }

  /** Options copied elsewhere parse the same; one more option behind them is one more option. */
  lemma {:induction false} OptionsExtended(p: Bytes, o: nat, end: nat, q: Bytes, o': nat, code: uint16, data: Bytes)
    requires o <= end <= |p| && OptionsAt(p, o, end).Some? && |data| < 0x1_0000
    requires At(q, o', p[o..end]) && At(q, o' + (end - o), Be16(code) + Be16(|data|) + data)
    ensures o' + (end - o) + 4 + |data| <= |q|
    ensures OptionsAt(q, o', o' + (end - o) + 4 + |data|) == Some(OptionsAt(p, o, end).value + [EdnsOption(code, data)])
    decreases end - o
  {
    hide At, Be16, OptionsAt;
    OptionHead(p, o, end);
    var last := [EdnsOption(code, data)];
    if o == end {
      OneOption(q, o', code, data);
      assert [] + last == last;
    } else {
      var next := o + 4 + U16(p, o + 2) as int;
      var rest := OptionsAt(p, next, end).value;
      FieldMoved(p, o, end, q, o', o);
      FieldMoved(p, o, end, q, o', o + 2);
      SplitAt(p, o, next, end, q, o');
      SplitAt(p, o, o + 4, next, q, o');
      AtSlice(q, o' + 4, p[o + 4..next]);
      OptionsExtended(p, next, end, q, o' + (next - o), code, data);
      OptionHead(q, o', o' + (end - o) + 4 + |data|);
      ConcatAssoc([EdnsOption(U16(p, o), p[o + 4..next])], rest, last);
    }
  }

  /** One step of the option parser. */
  lemma {:induction false} OptionHead(p: Bytes, o: nat, end: nat)
    requires end <= |p|
    ensures o == end ==> OptionsAt(p, o, end) == Some([])
    ensures o < end && OptionsAt(p, o, end).Some? ==>
              o + 4 <= end && var next := o + 4 + U16(p, o + 2) as int;
              && next <= end && OptionsAt(p, next, end).Some?
              && OptionsAt(p, o, end).value == [EdnsOption(U16(p, o), p[o + 4..next])] + OptionsAt(p, next, end).value
    ensures o + 4 <= end ==>
              var next := o + 4 + U16(p, o + 2) as int;
              next <= end && OptionsAt(p, next, end).Some? ==>
                OptionsAt(p, o, end) == Some([EdnsOption(U16(p, o), p[o + 4..next])] + OptionsAt(p, next, end).value)
  {
  }

  lemma {:induction false} OptionFits(q: Bytes, o: nat, code: uint16, data: Bytes)
    requires |data| < 0x1_0000 && At(q, o, Be16(code) + Be16(|data|) + data)
    ensures o + 4 + |data| <= |q|
  {
  }

  lemma {:induction false} OneOption(q: Bytes, o: nat, code: uint16, data: Bytes)
    requires |data| < 0x1_0000 && At(q, o, Be16(code) + Be16(|data|) + data)
    ensures o + 4 + |data| <= |q| && OptionsAt(q, o, o + 4 + |data|) == Some([EdnsOption(code, data)])
  {
    hide At, Be16;
    OptionFits(q, o, code, data);
    AtParts(q, o, Be16(code) + Be16(|data|), data);
    AtParts(q, o, Be16(code), Be16(|data|));
    Be16RoundTrip(q, o, code);
    Be16RoundTrip(q, o + 2, |data|);
    AtSlice(q, o + 4, data);
    assert OptionsAt(q, o + 4 + |data|, o + 4 + |data|) == Some([]);
    assert [EdnsOption(code, data)] + [] == [EdnsOption(code, data)];
  }

  // ---------------------------------------------------------------- finding the OPT

  /** A root-owned OPT record: the only kind this editor recognises. */
  predicate RootOpt(p: Bytes, s: Span) {
    s.start < |p| && p[s.start] == 0 && IsOpt(p, s)
  }

  ghost predicate FirstRootOpt(p: Bytes, list: seq<Span>, k: nat) {
    k < |list| && RootOpt(p, list[k]) && forall i :: 0 <= i < k ==> !RootOpt(p, list[i])
  }

  lemma {:induction false} RootOwned(p: Bytes, s: Span)
    requires Stands(p, s) && s.start < |p| && p[s.start] == 0
    ensures s.In(p) && s.body == s.start + 1 && s.end == s.start + 11 + U16(p, s.start + 9)
  {
  }

  lemma {:induction false} FindHere(p: Bytes, s: Span, n: nat)
    requires Stands(p, s) && n > 0 && RootOpt(p, s)
    ensures |p| > 0 && FindRootOpt(p, s.start, n) == FoundAt(s.start)
  {
    hide SkipName;
    RootOwned(p, s);
  }

  lemma {:induction false} FindLater(p: Bytes, s: Span, n: nat)
    requires Stands(p, s) && n > 0 && !RootOpt(p, s)
    ensures |p| > 0 && FindRootOpt(p, s.start, n) == FindRootOpt(p, s.end, n - 1)
  {
    hide SkipName;
    if s.start < |p| && p[s.start] == 0 {
      RootOwned(p, s);
    }
  }

  lemma {:induction false} FindFirst(p: Bytes, o: nat, list: seq<Span>, end: nat, k: nat)
    requires Walks(p, o, list, end) && FirstRootOpt(p, list, k)
    ensures |p| > 0 && FindRootOpt(p, o, |list|) == FoundAt(list[k].start)
    decreases |list|
  {
    hide Walks, Stands, FindRootOpt, RootOpt;
    WalksFirst(p, o, list, end);
    if k == 0 {
      FindHere(p, list[0], |list|);
    } else {
      FindLater(p, list[0], |list|);
      assert forall i :: 0 <= i < |list| - 1 ==> list[1..][i] == list[i + 1];
      FindFirst(p, list[0].end, list[1..], end, k - 1);
    }
  }

  lemma {:induction false} SearchSucceeds(p: Bytes, l: Shape, k: nat)
    requires Laid(p, l) && |p| <= MAX_PACKET && FirstRootOpt(p, l.extra, k)
    ensures MainSectionEnd(p) == Ok(l.mainEnd) && U16(p, 10) == |l.extra|
    ensures FindRootOpt(p, l.mainEnd, U16(p, 10)) == FoundAt(l.extra[k].start)
  {
    MainEndLaid(p, l);
    hide Laid, Walks, FindRootOpt, MainSectionEnd;
    LaidFacts(p, l);
    FindFirst(p, l.mainEnd, l.extra, |p|, k);
  }

  lemma {:induction false} MainEndLaid(p: Bytes, l: Shape)
    requires Laid(p, l) && |p| <= MAX_PACKET && |l.extra| > 0
    ensures MainSectionEnd(p) == Ok(l.mainEnd)
  {
  }

  /** What is refused before any record is looked at. */
  lemma {:induction false} EcsRefusedAtOnce(p: Bytes, ip: IpAddr, prefix4: byte, prefix6: byte)
    requires |p| < 12 || |p| > 4096 || p[4] != 0 || p[5] != 1
    ensures AddEcs(p, ip, prefix4, prefix6)
         == EcsEdit(p, Refused(if |p| < 12 then TooShort else if |p| > 4096 then TooLarge else NoQuestion))
  {
    hide SkipName, Traverse, FindRootOpt, HasEcs, Spliced, EcsOption;
  }

  lemma {:induction false} FindNothing(p: Bytes, o: nat, list: seq<Span>, end: nat)
    requires Walks(p, o, list, end) && forall i :: 0 <= i < |list| ==> !RootOpt(p, list[i])
    ensures |p| > 0 && FindRootOpt(p, o, |list|) == Missing
    decreases |list|
  {
    hide Walks, Stands, FindRootOpt, RootOpt;
    WalksNonempty(p, o, list, end);
    if |list| == 0 {
      FindNone(p, o);
    } else {
      WalksFirst(p, o, list, end);
      FindLater(p, list[0], |list|);
      assert forall i :: 0 <= i < |list| - 1 ==> list[1..][i] == list[i + 1];
      FindNothing(p, list[0].end, list[1..], end);
    }
  }

  lemma {:induction false} FindNone(p: Bytes, o: nat)
    requires |p| > 0
    ensures FindRootOpt(p, o, 0) == Missing
  {
  }

  /** Without a root-owned OPT nothing is inserted. */
  lemma {:induction false} EcsNeedsRootOpt(p: Bytes, l: Shape, ip: IpAddr, prefix4: byte, prefix6: byte)
    requires Laid(p, l) && |p| <= MAX_PACKET && forall i :: 0 <= i < |l.extra| ==> !RootOpt(p, l.extra[i])
    ensures AddEcs(p, ip, prefix4, prefix6) == EcsEdit(p, Refused(NoOptRecord))
  {
    LaidFacts(p, l);
    FindNothing(p, l.mainEnd, l.extra, |p|);
    if |l.extra| > 0 {
      MainEndLaid(p, l);
      hide MainSectionEnd;
    }
  }

  // ---------------------------------------------------------------- the splice

  /** The record with `option` inserted at the end of its data. */
  lemma {:induction false} SplicedRecord(p: Bytes, s: Span, option: Bytes)
    requires Stands(p, s) && RootOpt(p, s) && |p| <= MAX_PACKET && |option| <= 24
    ensures s.In(p) && s.body == s.start + 1 && s.end == s.start + 11 + U16(p, s.start + 9)
    ensures var q := Spliced(p, s.start, option);
            var s' := s.(end := s.end + |option|);
            && |q| == |p| + |option| && Stands(q, s') && RootOpt(q, s')
            && SameHead(p, q, s.body + 8) && SameRest(p, s.end, q, s'.end)
            && U16(q, s.body + 8) == U16(p, s.body + 8) as int + |option|
            && At(q, s.body + 10, p[s.body + 10..s.end]) && At(q, s.end, option)
  {
    hide SkipName;
    RootOwned(p, s);
    SplicedBytes(p, s, option);
    var q := Spliced(p, s.start, option);
    assert q[s.start] == q[..s.body + 8][s.start] == p[..s.body + 8][s.start] == p[s.start];
    HeadBytes(p, q, s.body + 8, s.body);
    SliceKept(p, q, s.body + 8, s.start, s.body);
    StepMoved(p, s.start, q, s.start);
  }

  /** The bytes of the splice: all before the length field kept, the new length, the data, the option, the rest. */
  lemma {:induction false} SplicedBytes(p: Bytes, s: Span, option: Bytes)
    requires s.In(p) && s.body == s.start + 1 && s.end == s.start + 11 + U16(p, s.start + 9)
    requires |p| <= MAX_PACKET && |option| <= 24
    ensures var q := Spliced(p, s.start, option);
            && |q| == |p| + |option|
            && SameHead(p, q, s.body + 8) && SameRest(p, s.end, q, s.end + |option|)
            && U16(q, s.body + 8) == U16(p, s.body + 8) as int + |option|
            && At(q, s.body + 10, p[s.body + 10..s.end]) && At(q, s.end, option)
  {
    hide Put16, U16;
    var q := Spliced(p, s.start, option);
    var n := U16(p, s.start + 9) as int;
    var w := Put16(p, s.start + 9, n + |option|);
    Put16RoundTrip(p, s.start + 9, n + |option|);
    assert q == w[..s.end] + option + w[s.end..];
    SpliceParts(w, s.end, option, q);
    SuffixSlices(p, w, s.body + 10, s.end);
    assert q[..s.body + 8] == q[..s.end][..s.body + 8] == w[..s.body + 8];
    assert q[s.body + 10..s.end] == q[..s.end][s.body + 10..] == w[s.body + 10..s.end];
    HeadBytes(w, q, s.end, s.body + 8);
  }

  lemma {:induction false} SpliceParts(w: Bytes, end: nat, option: Bytes, q: Bytes)
    requires end <= |w| && q == w[..end] + option + w[end..]
    ensures |q| == |w| + |option| && SameHead(w, q, end) && At(q, end, option) && q[end + |option|..] == w[end..]
  {
  }

  lemma {:induction false} SameHeadShorter(p: Bytes, q: Bytes, m: nat, m': nat)
    requires SameHead(p, q, m) && m' <= m
    ensures SameHead(p, q, m')
  {
    assert q[..m'] == q[..m][..m'] == p[..m][..m'] == p[..m'];
  }

  /**
    On a packet with one question that walks exactly to its end, whose first root-owned OPT has
    well-formed options and none with code 8: insertion succeeds, only that record's data
    changes, by exactly one new option at its end, its length field does not wrap, the records
    behind it move as they are, and everything before its length field is untouched.
   */
  lemma {:induction false} EcsSplices(p: Bytes, l: Shape, k: nat, ip: IpAddr, prefix4: byte, prefix6: byte)
    returns (q: Bytes, s': Span)
    requires Laid(p, l) && |p| <= MAX_PACKET && FirstRootOpt(p, l.extra, k) && l.extra[k].In(p)
    requires OptionsAt(p, l.extra[k].body + 10, l.extra[k].end).Some?
    requires !HasSubnet(OptionsAt(p, l.extra[k].body + 10, l.extra[k].end).value)
    ensures AddEcs(p, ip, prefix4, prefix6) == EcsEdit(q, Done)
    ensures s' == l.extra[k].(end := l.extra[k].end + |EcsOption(ip, prefix4, prefix6)|)
    ensures |q| - |p| == s'.end - l.extra[k].end
    ensures Laid(q, l.(extra := l.extra[..k] + [s'] + ShiftAll(l.extra[k + 1..], s'.end - l.extra[k].end)))
    ensures s'.In(q) && RootOpt(q, s')
    ensures OptionsAt(q, s'.body + 10, s'.end)
         == Some(OptionsAt(p, l.extra[k].body + 10, l.extra[k].end).value
                 + [EdnsOption(OPTION_SUBNET, EcsData(ip, prefix4, prefix6))])
    ensures U16(q, s'.body + 8) == U16(p, s'.body + 8) as int + (s'.end - l.extra[k].end)
    ensures SameHead(p, q, s'.body + 8) && SameRest(p, l.extra[k].end, q, s'.end)
  {
    hide Laid, Walks, Stands, FindRootOpt, HasEcs, Spliced, EcsData, EcsOption, SameHead, SameRest, At, HasSubnet,
      MainSectionEnd, RootOpt, ShiftAll, OptionsAt;
    var s := l.extra[k];
    var option := EcsOption(ip, prefix4, prefix6);
    ExtraIn(p, l, k);
    SplicedInside(p, s);
    q, s' := Spliced(p, s.start, option), s.(end := s.end + |option|);
    SearchSucceeds(p, l, k);
    SplicedRecord(p, s, option);
    ScanFindsSubnet(p, s.body + 10, s.end - s.body - 10, 0);
    SameHeadShorter(p, q, s.body + 8, s.start);
    LayoutEdit(p, l, q, k, s');
    EcsOptionParts(ip, prefix4, prefix6);
    OptionsExtended(p, s.body + 10, s.end, q, s.body + 10, OPTION_SUBNET, EcsData(ip, prefix4, prefix6));
    StandsIn(q, s');
  }

  lemma {:induction false} SplicedInside(p: Bytes, s: Span)
    requires s.In(p)
    ensures s.start + 11 <= |p|
  {
  }

  lemma {:induction false} StandsIn(q: Bytes, s: Span)
    requires Stands(q, s)
    ensures s.In(q)
  {
    hide SkipName;
  }

  lemma {:induction false} EcsOptionParts(ip: IpAddr, prefix4: byte, prefix6: byte)
    ensures var data := EcsData(ip, prefix4, prefix6);
            EcsOption(ip, prefix4, prefix6) == Be16(OPTION_SUBNET) + Be16(|data|) + data
            && |EcsOption(ip, prefix4, prefix6)| == 4 + |data|
  {
    hide EcsData;
  }

  /** What insertion does once the OPT is found, in terms of its options. */
  lemma {:induction false} InsertionIs(p: Bytes, l: Shape, k: nat, ip: IpAddr, prefix4: byte, prefix6: byte)
    requires Laid(p, l) && |p| <= MAX_PACKET && FirstRootOpt(p, l.extra, k) && l.extra[k].In(p)
    requires OptionsAt(p, l.extra[k].body + 10, l.extra[k].end).Some?
    ensures l.extra[k].start + 11 <= |p|
    ensures AddEcs(p, ip, prefix4, prefix6)
         == if HasSubnet(OptionsAt(p, l.extra[k].body + 10, l.extra[k].end).value) then EcsEdit(p, Done)
            else EcsEdit(Spliced(p, l.extra[k].start, EcsOption(ip, prefix4, prefix6)), Done)
  {
    hide Laid, Walks, Stands, FindRootOpt, HasEcs, Spliced, HasSubnet, MainSectionEnd, OptionsAt, EcsOption;
    var s := l.extra[k];
    ExtraIn(p, l, k);
    SearchSucceeds(p, l, k);
    RootOwned(p, s);
    ScanFindsSubnet(p, s.body + 10, s.end - s.body - 10, 0);
  }

  /** A subnet option already there has priority: the packet is left byte for byte as it is. */
  lemma {:induction false} EcsKeepsExisting(p: Bytes, l: Shape, k: nat, ip: IpAddr, prefix4: byte, prefix6: byte)
    requires Laid(p, l) && |p| <= MAX_PACKET && FirstRootOpt(p, l.extra, k) && l.extra[k].In(p)
    requires OptionsAt(p, l.extra[k].body + 10, l.extra[k].end).Some?
    requires HasSubnet(OptionsAt(p, l.extra[k].body + 10, l.extra[k].end).value)
    ensures AddEcs(p, ip, prefix4, prefix6) == EcsEdit(p, Done)
  {
    hide Laid, Spliced, HasSubnet, RootOpt, OptionsAt, AddEcs, EcsOption;
    InsertionIs(p, l, k, ip, prefix4, prefix6);
  }

  /** The other records before `k` are not root-owned OPT records after the splice either. */
  lemma {:induction false} FirstRootOptKept(p: Bytes, l: Shape, q: Bytes, k: nat, s': Span, after: seq<Span>)
    requires Laid(p, l) && FirstRootOpt(p, l.extra, k) && RootOpt(q, s')
    requires SameHead(p, q, l.extra[k].start)
    ensures FirstRootOpt(q, l.extra[..k] + [s'] + after, k)
  {
    hide Laid, IsOpt, SameHead, At;
    var extra := l.extra[..k] + [s'] + after;
    forall i | 0 <= i < k
      ensures !RootOpt(q, extra[i])
    {
      BeforeKept(p, l, q, k, i);
      FirstByte(q, l.extra[i].start, p, l.extra[i].end);
    }
  }

  lemma {:induction false} FirstByte(q: Bytes, o: nat, p: Bytes, end: nat)
    requires o < end <= |p| && At(q, o, p[o..end])
    ensures o < |q| && q[o] == p[o]
  {
    assert q[o] == q[o..o + (end - o)][0] == p[o..end][0] == p[o];
  }

  lemma {:induction false} HasSubnetAppended(options: seq<EdnsOption>, last: EdnsOption)
    requires last.code == OPTION_SUBNET
    ensures HasSubnet(options + [last])
  {
    assert (options + [last])[|options|] == last;
  }

  /**
    Inserting twice leaves what inserting once left, whatever the second address; the second
    call reports success exactly when the grown packet still has at most 4096 bytes.
   */
  lemma {:induction false} EcsIdempotent(p: Bytes, l: Shape, k: nat, ip: IpAddr, ip': IpAddr, prefix4: byte,
      prefix6: byte)
    requires Laid(p, l) && |p| <= MAX_PACKET && FirstRootOpt(p, l.extra, k) && l.extra[k].In(p)
    requires OptionsAt(p, l.extra[k].body + 10, l.extra[k].end).Some?
    ensures var q := AddEcs(p, ip, prefix4, prefix6).bytes;
            && AddEcs(q, ip', prefix4, prefix6).bytes == q
            && (AddEcs(q, ip', prefix4, prefix6).outcome == Done <==> |q| <= MAX_PACKET)
  {
    hide Laid, AddEcs, HasSubnet, OptionsAt, RootOpt, SameHead, SameRest, EcsData, EcsOption, ShiftAll;
    var s := l.extra[k];
    var options := OptionsAt(p, s.body + 10, s.end).value;
    if HasSubnet(options) {
      EcsKeepsExisting(p, l, k, ip, prefix4, prefix6);
      EcsKeepsExisting(p, l, k, ip', prefix4, prefix6);
    } else {
      var q, s' := EcsSplices(p, l, k, ip, prefix4, prefix6);
      if |q| <= MAX_PACKET {
        var n := s'.end - s.end;
        var after := ShiftAll(l.extra[k + 1..], n);
        SameHeadShorter(p, q, s.body + 8, s.start);
        FirstRootOptKept(p, l, q, k, s', after);
        HasSubnetAppended(options, EdnsOption(OPTION_SUBNET, EcsData(ip, prefix4, prefix6)));
        EcsKeepsExisting(q, l.(extra := l.extra[..k] + [s'] + after), k, ip', prefix4, prefix6);
      } else {
        EcsRefusedAtOnce(q, ip', prefix4, prefix6);
      }
    }
  }
}
