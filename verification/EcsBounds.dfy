/** When the search of the subnet editor leaves the packet, and what rules that out. */
module EcsBounds {
  import opened Wire
  import opened Names
  import opened Layout
  import opened Edns
  import opened EdnsTheorems
  import opened Ecs
  import opened EcsTheorems
  import opened JsonQuery

  // ---------------------------------------------------------------- the exact condition

  /** A root-owned record begins at `o` and the packet ends before its type, or, an OPT, before its data. */
  predicate Overruns(p: Bytes, o: nat) {
    o < |p| && p[o] == 0 && (o + 3 > |p| || (U16(p, o + 1) == TYPE_OPT && o + 11 > |p|))
  }

  ghost predicate NoRootOpt(p: Bytes, list: seq<Span>) {
    forall i :: 0 <= i < |list| ==> !RootOpt(p, list[i])
  }

  /** Whole records, fewer than `n` and no root-owned OPT among them, lead from `o` to a record cut short. */
  ghost predicate CutShort(p: Bytes, o: nat, n: nat) {
    exists list: seq<Span>, end: nat ::
      |list| < n && Walks(p, o, list, end) && NoRootOpt(p, list) && Overruns(p, end)
  }

  lemma {:induction false} CutFound(p: Bytes, o: nat, list: seq<Span>, end: nat, n: nat)
    requires |list| < n && Walks(p, o, list, end) && NoRootOpt(p, list) && Overruns(p, end)
    ensures |p| > 0 && FindRootOpt(p, o, n) == OutOfRange
    decreases |list|
  {
    hide Walks, Stands, RootOpt, Overruns, FindRootOpt;
    if |list| == 0 {
      WalksEmpty(p, o, list, end);
      OverrunStops(p, o, n);
      WalksNonempty(p, o, list, end);
    } else {
      WalksFirst(p, o, list, end);
      FindLater(p, list[0], n);
      assert forall i :: 0 <= i < |list| - 1 ==> list[1..][i] == list[i + 1];
      CutFound(p, list[0].end, list[1..], end, n - 1);
    }
  }

  lemma {:induction false} OverrunStops(p: Bytes, o: nat, n: nat)
    requires Overruns(p, o) && n > 0
    ensures FindRootOpt(p, o, n) == OutOfRange
  {
  }

  /** Where the search goes on to when it neither stops nor fails at `o`. */
  lemma {:induction false} SearchGoesOn(p: Bytes, o: nat, n: nat) returns (next: nat)
    requires |p| > 0 && n > 0 && FindRootOpt(p, o, n) == OutOfRange && !Overruns(p, o)
    ensures FindRootOpt(p, next, n - 1) == OutOfRange
    ensures next <= |p| ==>
              StepAt(p, o).Ok? && StepAt(p, o).value.end == next && !RootOpt(p, StepAt(p, o).value)
  {
    var body := SkipName(p, o).value;
    next := body + 10 + U16(p, body + 8);
  }

  lemma {:induction false} CutReached(p: Bytes, o: nat, n: nat) returns (list: seq<Span>, end: nat)
    requires |p| > 0 && FindRootOpt(p, o, n) == OutOfRange
    ensures |list| < n && Walks(p, o, list, end) && NoRootOpt(p, list) && Overruns(p, end)
    decreases n
  {
    hide Walks, StepAt, FindRootOpt, Overruns, RootOpt;
    SearchEnds(p, o);
    if Overruns(p, o) {
      list, end := [], o;
      WalksNil(p, o);
    } else {
      var next := SearchGoesOn(p, o, n);
      var rest;
      rest, end := CutReached(p, next, n - 1);
      WalksNonempty(p, next, rest, end);
      OverrunInside(p, end);
      var s := StepAt(p, o).value;
      assert Stands(p, s);
      list := [s] + rest;
      WalksCons(p, s, rest, end);
    }
  }

  lemma {:induction false} SearchEnds(p: Bytes, o: nat)
    requires |p| > 0
    ensures FindRootOpt(p, o, 0) == Missing
  {
  }

  lemma {:induction false} OverrunInside(p: Bytes, o: nat)
    requires Overruns(p, o)
    ensures o < |p|
  {
  }

  /**
    The editor reads past the packet exactly when the question and the main sections walk and,
    before any root-owned OPT and within the additional count, a root-owned record is cut short.
   */
  lemma {:induction false} PanicsIffCutShort(p: Bytes, ip: IpAddr, prefix4: byte, prefix6: byte)
    ensures AddEcs(p, ip, prefix4, prefix6).outcome.Panicked? <==>
              MainSectionEnd(p).Ok? && CutShort(p, MainSectionEnd(p).value, U16(p, 10))
  {
    hide FindRootOpt, MainSectionEnd, HasEcs, Spliced, EcsOption, Walks, NoRootOpt, Overruns;
    if MainSectionEnd(p).Ok? {
      var start := MainSectionEnd(p).value;
      if FindRootOpt(p, start, U16(p, 10)) == OutOfRange {
        var list, end := CutReached(p, start, U16(p, 10));
      }
      if CutShort(p, start, U16(p, 10)) {
        var list: seq<Span>, end: nat :|
          |list| < U16(p, 10) && Walks(p, start, list, end) && NoRootOpt(p, list) && Overruns(p, end);
        CutFound(p, start, list, end, U16(p, 10));
      }
    }
  }

  // ---------------------------------------------------------------- a packet that is cut short

  /** One root question and one additional record of which only the owner is there. */
  const OWNER_ONLY: Bytes := [0, 1, 1, 0, 0, 1, 0, 0, 0, 0, 0, 1, 0, 0, 1, 0, 1, 0]

  lemma {:induction false} OwnerOnlyBytes()
    ensures var p := OWNER_ONLY;
            && |p| == 18 && U16(p, 4) == 1 && U16(p, 6) == 0 && U16(p, 8) == 0 && U16(p, 10) == 1
            && p[12] == 0 && p[17] == 0
  {
  }

  /** The first editor refuses this packet; the second, run all the same, leaves it. */
  lemma {:induction false} OwnerOnlyCrashes(ip: IpAddr, prefix4: byte, prefix6: byte)
    ensures SetEdns(OWNER_ONLY, UDP_SIZE) == Edited(OWNER_ONLY, Err(TooShort))
    ensures Prepare(OWNER_ONLY, Some(ip), prefix4, prefix6) == Crashed
  {
    hide OWNER_ONLY, EcsOption, HasEcs, Spliced, U16;
    OwnerOnlyBytes();
    var p := OWNER_ONLY;
    assert SkipName(p, HEADER_SIZE) == Ok(13);
    assert Traverse(p, 17, 0) == Ok(Spans([], 17));
    assert SkipName(p, 17) == Err(TooShort);
    assert FindRootOpt(p, 17, 1) == OutOfRange;
  }

  // ---------------------------------------------------------------- after a success of the first editor

  /** The question is skipped to `o` and the main sections walk from there to `start`. */
  ghost predicate MainWalks(p: Bytes, o: nat, main: seq<Span>, start: nat) {
    && |p| > HEADER_SIZE && HEADER_SIZE + 4 < o <= |p| && SkipName(p, HEADER_SIZE) == Ok(o - 4)
    && |main| == U16(p, 6) as int + U16(p, 8) as int && Walks(p, o, main, start) && start <= |p|
  }

  lemma {:induction false} StartWalks(p: Bytes) returns (o: nat, main: seq<Span>)
    requires AdditionalStart(p).Ok?
    ensures MainWalks(p, o, main, AdditionalStart(p).value)
  {
    hide SkipName, Traverse;
    o := SkipName(p, HEADER_SIZE).value + 4;
    main := Traverse(p, o, U16(p, 6) as int + U16(p, 8) as int).value.list;
  }

  lemma {:induction false} MainWalksEnd(p: Bytes, o: nat, main: seq<Span>, start: nat)
    requires MainWalks(p, o, main, start) && MainSectionEnd(p).Ok?
    ensures MainSectionEnd(p).value == start
  {
    hide SkipName, Traverse;
  }

  /** The main sections in a packet that holds the same bytes there. */
  lemma {:induction false} MainWalksKept(p: Bytes, o: nat, main: seq<Span>, start: nat, q: Bytes)
    requires MainWalks(p, o, main, start) && |q| >= |p| && U16(q, 6) == U16(p, 6) && U16(q, 8) == U16(p, 8)
    requires At(q, HEADER_SIZE, p[HEADER_SIZE..o - 4]) && o <= start && At(q, o, p[o..start])
    ensures MainWalks(q, o, main, start)
  {
    hide SkipName, Walks, At, ShiftAll, U16;
    QuestionSkipped(p, q, o - 4);
    WalksMoved(p, o, main, start, q, o);
    ShiftNone(main);
  }

  /** The records a successful scan passed, the OPT it found among them. */
  lemma {:induction false} ScanWalks(p: Bytes, o: nat, n: nat, found: Option<nat>) returns (list: seq<Span>)
    requires |p| > 0 && ScanFrom(p, o, n, found).out.Ok?
    ensures |list| == n && Walks(p, o, list, ScanFrom(p, o, n, found).out.value)
    ensures found.None? && ScanFrom(p, o, n, found).opt.Some? ==>
              exists k :: 0 <= k < n && list[k].body == ScanFrom(p, o, n, found).opt.value
    decreases n
  {
    hide Walks, Stands, ScanFrom, StepAt;
    if n == 0 {
      ScanNothing(p, o, found);
      WalksNil(p, o);
      list := [];
    } else {
      var s := ScanStands(p, o, n, found);
      var found' := if IsOpt(p, s) then Some(s.body) else found;
      var rest := ScanWalks(p, s.end, n - 1, found');
      list := [s] + rest;
      WalksCons(p, s, rest, ScanFrom(p, o, n, found).out.value);
      if found.None? && ScanFrom(p, o, n, found).opt.Some? {
        if IsOpt(p, s) {
          assert list[0].body == s.body;
        } else {
          var k :| 0 <= k < n - 1 && rest[k].body == ScanFrom(p, o, n, found).opt.value;
          assert list[k + 1].body == rest[k].body;
        }
      }
    }
  }

  lemma {:induction false} ScanNothing(p: Bytes, o: nat, found: Option<nat>)
    requires |p| > 0
    ensures ScanFrom(p, o, 0, found) == Scan(found, Ok(o))
  {
  }

  lemma {:induction false} ScanStands(p: Bytes, o: nat, n: nat, found: Option<nat>) returns (s: Span)
    requires |p| > 0 && n > 0 && ScanFrom(p, o, n, found).out.Ok?
    ensures Stands(p, s) && s.start == o
    ensures ScanFrom(p, o, n, found)
         == ScanFrom(p, s.end, n - 1, if IsOpt(p, s) then Some(s.body) else found)
    ensures found.None? && IsOpt(p, s) ==> ScanFrom(p, o, n, found).opt == Some(s.body)
  {
    hide SkipName;
    s := StepAt(p, o).value;
  }

  /** Over whole records, or up to the last with room for a fixed part there, the search stays inside. */
  lemma {:induction false} SearchStaysInside(p: Bytes, o: nat, list: seq<Span>, end: nat, n: nat)
    requires Walks(p, o, list, end) && (n == |list| || (n == |list| + 1 && end + 11 <= |p|))
    ensures |p| > 0 && FindRootOpt(p, o, n) != OutOfRange
    decreases |list|
  {
    hide Walks, Stands, RootOpt, FindRootOpt;
    WalksNonempty(p, o, list, end);
    if |list| == 0 {
      WalksEmpty(p, o, list, end);
      LastInside(p, o, n);
    } else {
      WalksFirst(p, o, list, end);
      if RootOpt(p, list[0]) {
        FindHere(p, list[0], n);
      } else {
        FindLater(p, list[0], n);
        SearchStaysInside(p, list[0].end, list[1..], end, n - 1);
      }
    }
  }

  lemma {:induction false} LastInside(p: Bytes, o: nat, n: nat)
    requires |p| > 0 && (n == 0 || (n == 1 && o + 11 <= |p|))
    ensures FindRootOpt(p, o, n) != OutOfRange
  {
    hide SkipName;
  }

  lemma {:induction false} InsideNoPanic(q: Bytes, o: nat, main: seq<Span>, start: nat, list: seq<Span>, end: nat,
                                         ip: IpAddr, prefix4: byte, prefix6: byte)
    requires MainWalks(q, o, main, start) && Walks(q, start, list, end)
    requires U16(q, 10) == |list| || (U16(q, 10) == |list| + 1 && end + 11 <= |q|)
    ensures !AddEcs(q, ip, prefix4, prefix6).outcome.Panicked?
  {
    hide FindRootOpt, MainSectionEnd, HasEcs, Spliced, EcsOption, Walks, MainWalks;
    if MainSectionEnd(q).Ok? {
      MainWalksEnd(q, o, main, start);
      SearchStaysInside(q, start, list, end, U16(q, 10));
    }
  }

  /** The OPT's class written: the same records, since the fields that place them are kept. */
  lemma {:induction false} PatchedWalks(p: Bytes, o: nat, main: seq<Span>, start: nat, list: seq<Span>, end: nat,
                                        k: nat, size: uint16)
    requires MainWalks(p, o, main, start) && Walks(p, start, list, end) && end <= |p| && k < |list|
    requires list[k].In(p)
    ensures var q := Put16(p, list[k].body + 2, size);
            MainWalks(q, o, main, start) && Walks(q, start, list, end) && U16(q, 10) == U16(p, 10)
  {
    hide Walks, Stands, At, SameHead, SameRest, Put16, ShiftAll, SkipName, U16;
    var s := list[k];
    var q := Put16(p, s.body + 2, size);
    WalksNonempty(p, o, main, start);
    WalksAt(p, start, list, end, k);
    PatchHead(p, s, size);
    StandsPatched(p, s, q);
    HeadBytes(p, q, s.start, 6);
    HeadBytes(p, q, s.start, 8);
    HeadBytes(p, q, s.start, 10);
    SliceKept(p, q, s.start, HEADER_SIZE, o - 4);
    SliceKept(p, q, s.start, o, start);
    MainWalksKept(p, o, main, start, q);
    EditedBefore(p, start, list[..k], s.start, q);
    RestSlice(p, s.end, q, s.end, s.end, end);
    WalksMoved(p, s.end, list[k + 1..], end, q, s.end);
    ShiftNone(list[k + 1..]);
    WalksCons(q, s, list[k + 1..], end);
    WalksJoin(q, start, list[..k], s.start, [s] + list[k + 1..], end);
    assert list == list[..k] + ([s] + list[k + 1..]);
  }

  /** An OPT appended: the same records, and room for one more fixed part behind them. */
  lemma {:induction false} AddedWalks(p: Bytes, o: nat, main: seq<Span>, start: nat, list: seq<Span>, end: nat,
                                      n: uint16, size: uint16)
    requires MainWalks(p, o, main, start) && Walks(p, start, list, end) && end <= |p|
    ensures var q := Put16(p, 10, n) + OptRecord(size);
            MainWalks(q, o, main, start) && Walks(q, start, list, end) && U16(q, 10) == n && end + 11 <= |q|
  {
    hide Walks, At, Put16, ShiftAll, SkipName, U16, OptRecord;
    var q := Put16(p, 10, n) + OptRecord(size);
    WalksNonempty(p, o, main, start);
    WalksNonempty(p, start, list, end);
    AppendKeeps(p, n, OptRecord(size));
    MainWalksKept(p, o, main, start, q);
    WalksMoved(p, start, list, end, q, start);
    ShiftNone(list);
  }

  /** Once the payload size is set, the subnet editor stays inside the packet, whatever packet it was. */
  lemma {:induction false} SuccessKeepsInside(p: Bytes, size: uint16, ip: IpAddr, prefix4: byte, prefix6: byte)
    requires SetEdns(p, size).out.Ok?
    ensures !AddEcs(SetEdns(p, size).bytes, ip, prefix4, prefix6).outcome.Panicked?
  {
    hide Walks, MainWalks, AddEcs, ScanFrom, AdditionalStart, OptRecord, Put16, U16;
    var start := AdditionalStart(p).value;
    var scan := ScanFrom(p, start, U16(p, 10), None);
    var o, main := StartWalks(p);
    var list := ScanWalks(p, start, U16(p, 10), None);
    var end := scan.out.value;
    ScanCount(p, start, U16(p, 10), None);
    if scan.opt.Some? {
      var k :| 0 <= k < |list| && list[k].body == scan.opt.value;
      WalksAt(p, start, list, end, k);
      PatchedWalks(p, o, main, start, list, end, k, size);
    } else {
      AddedWalks(p, o, main, start, list, end, U16(p, 10) as int + 1, size);
    }
    InsideNoPanic(SetEdns(p, size).bytes, o, main, start, list, end, ip, prefix4, prefix6);
  }

  /**
    The request of a known client is lost exactly when it has at least 17 bytes, the first
    editor refuses it, and what that editor leaves is cut short: its refusal is ignored.
   */
  lemma {:induction false} CrashedIff(p: Bytes, ip: IpAddr, prefix4: byte, prefix6: byte)
    ensures var first := SetEdns(p, 4096);
            Prepare(p, Some(ip), prefix4, prefix6).Crashed? <==>
              && |p| >= 17 && first.out.Err? && MainSectionEnd(first.bytes).Ok?
              && CutShort(first.bytes, MainSectionEnd(first.bytes).value, U16(first.bytes, 10))
  {
    hide SetEdns, AddEcs, CutShort, MainSectionEnd;
    PanicsIffCutShort(SetEdns(p, UDP_SIZE).bytes, ip, prefix4, prefix6);
    if SetEdns(p, UDP_SIZE).out.Ok? {
      SuccessKeepsInside(p, UDP_SIZE, ip, prefix4, prefix6);
    }
  }

  /** What becomes of every other request: under 17 bytes it is refused, else it is sent as the editors leave it. */
  lemma {:induction false} OtherwiseSent(p: Bytes, clientIp: Option<IpAddr>, prefix4: byte, prefix6: byte)
    ensures Prepare(p, clientIp, prefix4, prefix6).Incomplete? <==> |p| < 17
    ensures |p| >= 17 && clientIp.None? ==> Prepare(p, clientIp, prefix4, prefix6) == Sent(SetEdns(p, 4096).bytes)
    ensures |p| >= 17 && clientIp.Some? && !Prepare(p, clientIp, prefix4, prefix6).Crashed? ==>
              Prepare(p, clientIp, prefix4, prefix6)
              == Sent(AddEcs(SetEdns(p, 4096).bytes, clientIp.value, prefix4, prefix6).bytes)
  {
    hide SetEdns, AddEcs;
  }
}
