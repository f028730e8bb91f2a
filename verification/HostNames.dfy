/** Host names as text: the labels between their dots. */
module HostNames {
  import opened Wire
  import opened Names

  /** The pieces between the dots, one more than there are dots. */
  function Split(host: Bytes): (r: Labels)
    ensures |r| > 0
    ensures forall l :: l in r ==> DOT !in l
  {
    if |host| == 0 then [[]]
    else
      var n := |host| - 1;
      var before := Split(host[..n]);
      if host[n] == DOT then before + [[]]
      else before[..|before| - 1] + [before[|before| - 1] + [host[n]]]
  }

  lemma {:induction false} JoinLast(labels: Labels, b: byte)
    requires |labels| > 0
    ensures var n := |labels| - 1;
            JoinDots(labels[..n] + [labels[n] + [b]]) == JoinDots(labels) + [b]
  {
    var n := |labels| - 1;
    JoinSnoc(labels[..n], labels[n] + [b]);
    if n > 0 {
      ConcatAssoc(JoinDots(labels[..n]) + [DOT], labels[n], [b]);
    }
  }

  /** Splitting loses nothing: the pieces, which hold no dot, joined by dots are the text. */
  lemma {:induction false} SplitJoins(host: Bytes)
    ensures JoinDots(Split(host)) == host
  {
    if |host| > 0 {
      var n := |host| - 1;
      var before := Split(host[..n]);
      SplitJoins(host[..n]);
      assert host == host[..n] + [host[n]];
      if host[n] == DOT {
        JoinSnoc(before, []);
        assert JoinDots(before) + [DOT] + [] == JoinDots(before) + [DOT];
      } else {
        JoinLast(before, host[n]);
      }
    }
  }

  /** Removal of all dots at the end. */
  function TrimDots(host: Bytes): (r: Bytes)
    ensures r <= host && (r == [] || r[|r| - 1] != DOT)
    ensures forall i :: |r| <= i < |host| ==> host[i] == DOT
  {
    if |host| > 0 && host[|host| - 1] == DOT then TrimDots(host[..|host| - 1]) else host
  }

  // ---------------------------------------------------------------- names compared as text

  predicate Dotless(labels: Labels) {
    forall l :: l in labels ==> DOT !in l
  }

  predicate NoneEmpty(labels: Labels) {
    forall l :: l in labels ==> l != []
  }

  /** The same labels, up to the case of ASCII letters. */
  predicate SameName(a: Labels, b: Labels) {
    |a| == |b| && forall i :: 0 <= i < |a| ==> LowerAll(a[i]) == LowerAll(b[i])
  }

  function LowerEach(labels: Labels): (r: Labels)
    ensures |r| == |labels|
  {
    seq(|labels|, i requires 0 <= i < |labels| => LowerAll(labels[i]))
  }

  lemma {:induction false} LowerEachSnoc(labels: Labels, last: Bytes)
    ensures LowerEach(labels + [last]) == LowerEach(labels) + [LowerAll(last)]
  {
    hide LowerAll;
  }

  lemma {:induction false} LowerOfNone()
    ensures LowerAll(JoinDots([])) == [] && LowerEach([]) == [] && JoinDots([]) == []
  {
  }

  lemma {:induction false} LowerOfJoin(labels: Labels)
    ensures LowerAll(JoinDots(labels)) == JoinDots(LowerEach(labels))
    decreases |labels|
  {
    hide LowerAll, JoinDots, LowerEach;
    if |labels| > 0 {
      var n := |labels| - 1;
      assert labels == labels[..n] + [labels[n]];
      LowerOfJoin(labels[..n]);
      LowerSnoc(labels[..n], labels[n]);
      LowerEachSnoc(labels[..n], labels[n]);
      JoinSnoc(LowerEach(labels[..n]), LowerAll(labels[n]));
    } else {
      LowerOfNone();
    }
  }

  lemma {:induction false} SplitSnoc(host: Bytes, b: byte)
    ensures Split(host + [b])
         == var before := Split(host);
            if b == DOT then before + [[]] else before[..|before| - 1] + [before[|before| - 1] + [b]]
  {
    assert (host + [b])[..|host|] == host;
  }

  lemma {:induction false} SplitOne(piece: Bytes)
    requires DOT !in piece
    ensures Split(piece) == [piece]
  {
    if |piece| > 0 {
      var n := |piece| - 1;
      SplitOne(piece[..n]);
      SplitSnoc(piece[..n], piece[n]);
      assert piece == piece[..n] + [piece[n]];
    }
  }

  lemma {:induction false} SplitPiece(host: Bytes, piece: Bytes)
    requires DOT !in piece
    ensures Split(host + [DOT] + piece) == Split(host) + [piece]
    decreases |piece|
  {
    hide Split;
    if |piece| == 0 {
      SplitSnoc(host, DOT);
      assert host + [DOT] + piece == host + [DOT];
    } else {
      var n := |piece| - 1;
      SplitPiece(host, piece[..n]);
      SplitSnoc(host + [DOT] + piece[..n], piece[n]);
      assert host + [DOT] + piece == host + [DOT] + piece[..n] + [piece[n]];
      assert piece[n] in piece && piece == piece[..n] + [piece[n]];
      assert (Split(host) + [piece[..n]])[..|Split(host)|] == Split(host);
    }
  }

  /** Joining loses nothing when no label holds a dot. */
  lemma {:induction false} JoinSplits(labels: Labels)
    requires |labels| > 0 && Dotless(labels)
    ensures Split(JoinDots(labels)) == labels
    decreases |labels|
  {
    hide Split;
    var n := |labels| - 1;
    assert labels == labels[..n] + [labels[n]];
    if n == 0 {
      SplitOne(labels[0]);
    } else {
      JoinSplits(labels[..n]);
      SplitPiece(JoinDots(labels[..n]), labels[n]);
    }
  }

  lemma {:induction false} JoinEmptyIff(labels: Labels)
    requires NoneEmpty(labels)
    ensures JoinDots(labels) == [] <==> labels == []
  {
    assert labels != [] ==> labels[0] in labels;
  }

  lemma {:induction false} LowerEachKeeps(labels: Labels)
    ensures Dotless(labels) ==> Dotless(LowerEach(labels))
    ensures NoneEmpty(labels) ==> NoneEmpty(LowerEach(labels))
  {
    var lower := LowerEach(labels);
    forall l | l in lower
      ensures Dotless(labels) ==> DOT !in l
      ensures NoneEmpty(labels) ==> l != []
    {
      var i :| 0 <= i < |lower| && lower[i] == l;
      assert labels[i] in labels;
      assert forall j :: 0 <= j < |l| ==> l[j] == Lower(labels[i][j]) && labels[i][j] in labels[i];
    }
  }

  lemma {:induction false} SameNameIsEach(a: Labels, b: Labels)
    ensures SameName(a, b) <==> LowerEach(a) == LowerEach(b)
  {
    if SameName(a, b) {
      assert LowerEach(a) == LowerEach(b);
    }
    if LowerEach(a) == LowerEach(b) {
      forall i | 0 <= i < |a|
        ensures LowerAll(a[i]) == LowerAll(b[i])
      {
        assert LowerEach(a)[i] == LowerEach(b)[i];
      }
    }
  }

  /** Names whose labels are not empty and hold no dot have the same text exactly when they are the same name. */
  lemma {:induction false} SameTextIffSameName(a: Labels, b: Labels)
    requires Dotless(a) && Dotless(b) && NoneEmpty(a) && NoneEmpty(b)
    ensures LowerText(a) == LowerText(b) <==> SameName(a, b)
  {
    hide Split, LowerEach, SameName, Dotless, NoneEmpty;
    SameNameIsEach(a, b);
    LowerOfJoin(a);
    LowerOfJoin(b);
    LowerEachKeeps(a);
    LowerEachKeeps(b);
    JoinEmptyIff(LowerEach(a));
    JoinEmptyIff(LowerEach(b));
    if LowerText(a) == LowerText(b) {
      assert LowerAll(JoinDots(a)) == LowerText(a)[..|LowerText(a)| - 1];
      assert LowerAll(JoinDots(b)) == LowerText(b)[..|LowerText(b)| - 1];
      if a != [] && b != [] {
        JoinSplits(LowerEach(a));
        JoinSplits(LowerEach(b));
      }
    }
  }

  /** A dot inside a label reads like one between labels. */
  lemma {:induction false} DottedLabelSameText()
    ensures LowerText([[97, DOT, 98]]) == LowerText([[97], [98]]) && !SameName([[97, DOT, 98]], [[97], [98]])
  {
    assert [[97], [98]][..1] == [[97]];
    assert JoinDots([[97], [98]]) == [97] + [DOT] + [98] == JoinDots([[97, DOT, 98]]);
  }

  function Empties(n: nat): (r: Labels)
    ensures |r| == n && forall l :: l in r ==> l == []
  {
    seq(n, _ => [])
  }

  /** Dots at the end split off empty pieces only. */
  lemma {:induction false} SplitTrimmed(host: Bytes) returns (n: nat)
    ensures Split(host) == Split(TrimDots(host)) + Empties(n)
    decreases |host|
  {
    hide Split;
    if |host| > 0 && host[|host| - 1] == DOT {
      var last := |host| - 1;
      var k := SplitTrimmed(host[..last]);
      SplitSnoc(host[..last], DOT);
      assert host == host[..last] + [DOT];
      n := k + 1;
      assert Empties(n) == Empties(k) + [[]];
      ConcatAssoc(Split(TrimDots(host[..last])), Empties(k), [[]]);
    } else {
      n := 0;
      assert Split(host) + Empties(0) == Split(host);
    }
  }
}
