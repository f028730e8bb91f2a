/**
  The fastest-address cache of globals.rs: a doubly linked list threaded through a map,
  with expiry on lookup and eviction of the least recently used key.
 */
module LruCache {
  import opened Wire

  type Key = IpAddr

  datatype Status = Success | Failure

  datatype Entry = Entry(status: Status, latencyMs: uint32, expireAtMs: nat)

  // ---------------------------------------------------------------- the abstract cache

  /** Keys from most to least recently used, and what each holds. */
  datatype Lru = Lru(max: nat, order: seq<Key>, held: map<Key, Entry>)

  ghost predicate Distinct(s: seq<Key>) {
    forall i, j :: 0 <= i < j < |s| ==> s[i] != s[j]
  }

  ghost predicate Coherent(c: Lru) {
    && c.max >= 1 && |c.order| <= c.max && Distinct(c.order)
    && (forall k :: k in c.held <==> k in c.order)
  }

  function Without(s: seq<Key>, k: Key): (r: seq<Key>) {
    if |s| == 0 then [] else if s[0] == k then s[1..] else [s[0]] + Without(s[1..], k)
  }

  function Removed(c: Lru, k: Key): Lru {
    if k in c.held then c.(order := Without(c.order, k), held := c.held - {k}) else c
  }

  function Touched(c: Lru, k: Key): Lru {
    c.(order := [k] + Without(c.order, k))
  }

  function AfterGet(c: Lru, k: Key, now: nat): Lru {
    if k !in c.held then c
    else if c.held[k].expireAtMs <= now then Removed(c, k)
    else Touched(c, k)
  }

  function GetResult(c: Lru, k: Key, now: nat): Option<Entry> {
    if k in c.held && c.held[k].expireAtMs > now then Some(c.held[k]) else None
  }

  /** The key a new one pushes out of a full cache. */
  function Evicted(c: Lru, k: Key): Option<Key> {
    if k !in c.held && |c.order| >= c.max && |c.order| > 0 then Some(c.order[|c.order| - 1]) else None
  }

  function AfterUpsert(c: Lru, k: Key, e: Entry): Lru {
    if k in c.held then Touched(c, k).(held := c.held[k := e])
    else
      var kept := match Evicted(c, k) case Some(last) => Removed(c, last) case None => c;
      kept.(order := [k] + kept.order, held := kept.held[k := e])
  }

  lemma {:induction false} WithoutAt(s: seq<Key>, i: nat)
    requires Distinct(s) && i < |s|
    ensures Without(s, s[i]) == s[..i] + s[i + 1..]
    decreases i
  {
    if i > 0 {
      WithoutAt(s[1..], i - 1);
      assert s[1..][..i - 1] == s[1..i] && s[1..][i..] == s[i + 1..];
      assert [s[0]] + s[1..i] == s[..i];
    }
  }

  lemma {:induction false} WithoutAbsent(s: seq<Key>, k: Key)
    requires k !in s
    ensures Without(s, k) == s
    decreases |s|
  {
    if |s| > 0 {
      WithoutAbsent(s[1..], k);
      assert s == [s[0]] + s[1..];
    }
  }

  lemma {:induction false} RemoveIndex(s: seq<Key>, i: nat)
    requires Distinct(s) && i < |s|
    ensures var r := s[..i] + s[i + 1..];
            Distinct(r) && (forall k :: k in r <==> k in s && k != s[i])
  {
    var r := s[..i] + s[i + 1..];
    forall k | k in s && k != s[i]
      ensures k in r
    {
      var j :| 0 <= j < |s| && s[j] == k;
      assert r[if j < i then j else j - 1] == k;
    }
  }

  lemma {:induction false} WithoutFacts(s: seq<Key>, k: Key)
    requires Distinct(s)
    ensures Distinct(Without(s, k)) && (forall x :: x in Without(s, k) <==> x in s && x != k)
    ensures |Without(s, k)| == if k in s then |s| - 1 else |s|
  {
    if k in s {
      var i :| 0 <= i < |s| && s[i] == k;
      WithoutAt(s, i);
      RemoveIndex(s, i);
    } else {
      WithoutAbsent(s, k);
    }
  }

  lemma {:induction false} RemovedCoherent(c: Lru, k: Key)
    requires Coherent(c)
    ensures Coherent(Removed(c, k)) && k !in Removed(c, k).held
  {
    WithoutFacts(c.order, k);
  }

  lemma {:induction false} TouchedCoherent(c: Lru, k: Key)
    requires Coherent(c) && k in c.held
    ensures Coherent(Touched(c, k))
  {
    WithoutFacts(c.order, k);
  }

  lemma {:induction false} GetCoherent(c: Lru, k: Key, now: nat)
    requires Coherent(c)
    ensures Coherent(AfterGet(c, k, now))
  {
    if k in c.held {
      RemovedCoherent(c, k);
      TouchedCoherent(c, k);
    }
  }

  /** Insertion keeps the bound and never evicts the key it inserts. */
  lemma {:induction false} UpsertCoherent(c: Lru, k: Key, e: Entry)
    requires Coherent(c)
    ensures var d := AfterUpsert(c, k, e);
            && Coherent(d) && k in d.held && d.held[k] == e && d.order[0] == k
            && Evicted(c, k) != Some(k)
            && (forall x :: x != k ==> (x in d.held <==> x in c.held && Evicted(c, k) != Some(x)))
            && (forall x :: x != k && x in d.held ==> d.held[x] == c.held[x])
  {
    if k in c.held {
      WithoutFacts(c.order, k);
    } else if Evicted(c, k).Some? {
      var last := Evicted(c, k).value;
      assert last in c.order;
      WithoutFacts(c.order, last);
    }
  }

  // ---------------------------------------------------------------- the linked representation

  datatype Node = Node(entry: Entry, prev: Option<Key>, next: Option<Key>)

  function Before(s: seq<Key>, i: nat): Option<Key>
    requires i < |s|
  {
    if i == 0 then None else Some(s[i - 1])
  }

  function After(s: seq<Key>, i: nat): Option<Key>
    requires i < |s|
  {
    if i + 1 == |s| then None else Some(s[i + 1])
  }

  /** `head`, `tail` and the links spell out `s`, front to back and back to front. */
  ghost predicate Linked(m: map<Key, Node>, head: Option<Key>, tail: Option<Key>, s: seq<Key>) {
    && Distinct(s)
    && head == (if |s| == 0 then None else Some(s[0]))
    && tail == (if |s| == 0 then None else Some(s[|s| - 1]))
    && (forall i :: 0 <= i < |s| ==> s[i] in m && m[s[i]].prev == Before(s, i) && m[s[i]].next == After(s, i))
  }

  /** What the nodes hold, links aside. */
  ghost function Entries(m: map<Key, Node>): map<Key, Entry> {
    map k | k in m :: m[k].entry
  }

  function SetNext(m: map<Key, Node>, at: Option<Key>, next: Option<Key>): map<Key, Node> {
    if at.Some? && at.value in m then m[at.value := m[at.value].(next := next)] else m
  }

  function SetPrev(m: map<Key, Node>, at: Option<Key>, prev: Option<Key>): map<Key, Node> {
    if at.Some? && at.value in m then m[at.value := m[at.value].(prev := prev)] else m
  }

  function Cleared(m: map<Key, Node>, key: Key): map<Key, Node> {
    if key in m then m[key := m[key].(prev := None, next := None)] else m
  }

  /** The three map updates of detach. */
  function Unhooked(m: map<Key, Node>, key: Key, prev: Option<Key>, next: Option<Key>): map<Key, Node> {
    Cleared(SetPrev(SetNext(m, prev, next), next, prev), key)
  }

  lemma {:induction false} UnhookedEntries(m: map<Key, Node>, key: Key, prev: Option<Key>, next: Option<Key>)
    ensures Entries(Unhooked(m, key, prev, next)) == Entries(m) && Unhooked(m, key, prev, next).Keys == m.Keys
  {
    var m1 := SetNext(m, prev, next);
    var m2 := SetPrev(m1, next, prev);
    assert m1.Keys == m.Keys && Entries(m1) == Entries(m);
    assert m2.Keys == m.Keys && Entries(m2) == Entries(m1);
    assert Cleared(m2, key).Keys == m.Keys && Entries(Cleared(m2, key)) == Entries(m2);
  }

  lemma {:induction false} LinkedAt(m: map<Key, Node>, head: Option<Key>, tail: Option<Key>, s: seq<Key>, i: nat)
    requires Linked(m, head, tail, s) && i < |s|
    ensures s[i] in m && m[s[i]].prev == Before(s, i) && m[s[i]].next == After(s, i)
    ensures i > 0 ==> s[i - 1] in m && s[i - 1] != s[i]
    ensures i + 1 < |s| ==> s[i + 1] in m && s[i + 1] != s[i]
    ensures 0 < i && i + 1 < |s| ==> s[i - 1] != s[i + 1]
  {
  }

  /** What detach does to the node of another key. */
  lemma {:induction false} UnhookedNode(m: map<Key, Node>, key: Key, prev: Option<Key>, next: Option<Key>, x: Key)
    requires x in m && x != key
    ensures x in Unhooked(m, key, prev, next)
    ensures Unhooked(m, key, prev, next)[x]
         == Node(m[x].entry, if next == Some(x) then prev else m[x].prev, if prev == Some(x) then next else m[x].next)
  {
  }

  lemma {:induction false} NeighbourIs(s: seq<Key>, i: nat, j: nat)
    requires Distinct(s) && i < |s| && j < |s| && i != j
    ensures s[i] != s[j]
    ensures Before(s, i) == Some(s[j]) <==> j + 1 == i
    ensures After(s, i) == Some(s[j]) <==> j == i + 1
  {
  }

  lemma {:induction false} CutNeighbours(s: seq<Key>, i: nat, j: nat)
    requires i < |s| && j < |s| - 1
    ensures var r := s[..i] + s[i + 1..];
            var j' := if j < i then j else j + 1;
            && r[j] == s[j'] && Before(r, j) == (if j' == i + 1 then Before(s, i) else Before(s, j'))
            && After(r, j) == (if j' + 1 == i then After(s, i) else After(s, j'))
  {
  }

  /** The links of one remaining key after unlinking position `i`. */
  lemma {:induction false} UnhookedAt(m: map<Key, Node>, head: Option<Key>, tail: Option<Key>, s: seq<Key>, i: nat,
      j: nat)
    requires Linked(m, head, tail, s) && i < |s| && j < |s| - 1
    ensures var r := s[..i] + s[i + 1..];
            var m' := Unhooked(m, s[i], Before(s, i), After(s, i));
            r[j] in m' && m'[r[j]].prev == Before(r, j) && m'[r[j]].next == After(r, j)
  {
    hide Linked, Distinct, Unhooked, Before, After;
    var j' := if j < i then j else j + 1;
    LinkedAt(m, head, tail, s, j');
    LinkedDistinct(m, head, tail, s);
    NeighbourIs(s, i, j');
    UnhookedNode(m, s[i], Before(s, i), After(s, i), s[j']);
    CutNeighbours(s, i, j);
  }

  lemma {:induction false} LinkedDistinct(m: map<Key, Node>, head: Option<Key>, tail: Option<Key>, s: seq<Key>)
    requires Linked(m, head, tail, s)
    ensures Distinct(s)
  {
  }

  /** detach takes the key out of the list and leaves every entry as it was. */
  lemma {:induction false} DetachLinks(m: map<Key, Node>, head: Option<Key>, tail: Option<Key>, s: seq<Key>, key: Key)
    requires Linked(m, head, tail, s) && key in s && key in m
    ensures var prev, next := m[key].prev, m[key].next;
            && Linked(Unhooked(m, key, prev, next), if prev.Some? then head else next,
                      if next.Some? then tail else prev, Without(s, key))
            && Entries(Unhooked(m, key, prev, next)) == Entries(m) && Unhooked(m, key, prev, next).Keys == m.Keys
    ensures Distinct(s) && key !in Without(s, key) && (forall k :: k in Without(s, key) <==> k in s && k != key)
    ensures |Without(s, key)| == |s| - 1
  {
    hide Linked, Distinct, Unhooked, Without, Entries;
    var i: nat :| i < |s| && s[i] == key;
    LinkedDistinct(m, head, tail, s);
    LinkedAt(m, head, tail, s, i);
    WithoutAt(s, i);
    WithoutFacts(s, key);
    UnhookedEntries(m, key, Before(s, i), After(s, i));
    UnhookedAll(m, head, tail, s, i);
  }

  lemma {:induction false} UnhookedAll(m: map<Key, Node>, head: Option<Key>, tail: Option<Key>, s: seq<Key>, i: nat)
    requires Linked(m, head, tail, s) && i < |s|
    ensures var prev, next := Before(s, i), After(s, i);
            Linked(Unhooked(m, s[i], prev, next), if prev.Some? then head else next,
                   if next.Some? then tail else prev, s[..i] + s[i + 1..])
  {
    hide Unhooked, Linked, Distinct, Before, After;
    var r := s[..i] + s[i + 1..];
    var m' := Unhooked(m, s[i], Before(s, i), After(s, i));
    LinkedDistinct(m, head, tail, s);
    RemoveIndex(s, i);
    forall j | 0 <= j < |r|
      ensures NodeAt(m', r, j)
    {
      UnhookedAt(m, head, tail, s, i, j);
    }
    LinkedEnds(m, head, tail, s);
    CutEnds(s, i);
    LinkedIntro(m', if Before(s, i).Some? then head else After(s, i),
        if After(s, i).Some? then tail else Before(s, i), r);
  }

  ghost predicate NodeAt(m: map<Key, Node>, s: seq<Key>, j: nat) {
    j < |s| && s[j] in m && m[s[j]].prev == Before(s, j) && m[s[j]].next == After(s, j)
  }

  lemma {:induction false} LinkedIntro(m: map<Key, Node>, head: Option<Key>, tail: Option<Key>, s: seq<Key>)
    requires Distinct(s) && forall j :: 0 <= j < |s| ==> NodeAt(m, s, j)
    requires head == (if |s| == 0 then None else Some(s[0])) && tail == (if |s| == 0 then None else Some(s[|s| - 1]))
    ensures Linked(m, head, tail, s)
  {
    hide Distinct, Before, After;
    forall j | 0 <= j < |s|
      ensures s[j] in m && m[s[j]].prev == Before(s, j) && m[s[j]].next == After(s, j)
    {
      assert NodeAt(m, s, j);
    }
  }

  lemma {:induction false} CutEnds(s: seq<Key>, i: nat)
    requires i < |s|
    ensures var r := s[..i] + s[i + 1..];
            && (if |r| == 0 then None else Some(r[0])) == (if Before(s, i).Some? then Some(s[0]) else After(s, i))
            && (if |r| == 0 then None else Some(r[|r| - 1]))
                == (if After(s, i).Some? then Some(s[|s| - 1]) else Before(s, i))
  {
  }

  /** A key that is not in the list may be given any node. */
  lemma {:induction false} LinkedFrame(m: map<Key, Node>, head: Option<Key>, tail: Option<Key>, s: seq<Key>, key: Key,
      node: Node)
    requires Linked(m, head, tail, s) && key !in s
    ensures Linked(m[key := node], head, tail, s)
  {
  }

  lemma {:induction false} DistinctPush(s: seq<Key>, key: Key)
    requires Distinct(s) && key !in s
    ensures Distinct([key] + s)
  {
  }

  lemma {:induction false} PushedAt(m: map<Key, Node>, head: Option<Key>, tail: Option<Key>, s: seq<Key>, key: Key,
      j: nat)
    requires Linked(m, head, tail, s) && key !in s && key in m && m[key].prev == None && m[key].next == head && j <= |s|
    ensures var m' := SetPrev(m, head, Some(key));
            var r := [key] + s;
            r[j] in m' && m'[r[j]].prev == Before(r, j) && m'[r[j]].next == After(r, j)
  {
    LinkedEnds(m, head, tail, s);
    if j > 0 {
      LinkedAt(m, head, tail, s, j - 1);
      if j > 1 {
        LinkedApart(m, head, tail, s, 0, j - 1);
      }
    }
    hide Linked;
  }

  lemma {:induction false} LinkedEnds(m: map<Key, Node>, head: Option<Key>, tail: Option<Key>, s: seq<Key>)
    requires Linked(m, head, tail, s)
    ensures head == (if |s| == 0 then None else Some(s[0])) && tail == (if |s| == 0 then None else Some(s[|s| - 1]))
    ensures |s| > 0 ==> s[0] in m
  {
  }

  lemma {:induction false} LinkedApart(m: map<Key, Node>, head: Option<Key>, tail: Option<Key>, s: seq<Key>, i: nat,
      j: nat)
    requires Linked(m, head, tail, s) && i < j < |s|
    ensures s[i] != s[j]
  {
  }

  lemma {:induction false} SetPrevKeeps(m: map<Key, Node>, at: Option<Key>, prev: Option<Key>)
    ensures Entries(SetPrev(m, at, prev)) == Entries(m) && SetPrev(m, at, prev).Keys == m.Keys
  {
  }

  /** Hooking a detached key in front of the list. */
  lemma {:induction false} PushLinks(m: map<Key, Node>, head: Option<Key>, tail: Option<Key>, s: seq<Key>, key: Key)
    requires Linked(m, head, tail, s) && key !in s && key in m && m[key].prev == None && m[key].next == head
    ensures Linked(SetPrev(m, head, Some(key)), Some(key), if head.Some? then tail else Some(key), [key] + s)
    ensures Entries(SetPrev(m, head, Some(key))) == Entries(m) && SetPrev(m, head, Some(key)).Keys == m.Keys
  {
    hide SetPrev, Linked, Distinct, Before, After;
    var r := [key] + s;
    var m' := SetPrev(m, head, Some(key));
    forall j | 0 <= j < |r|
      ensures NodeAt(m', r, j)
    {
      PushedAt(m, head, tail, s, key, j);
    }
    LinkedDistinct(m, head, tail, s);
    LinkedEnds(m, head, tail, s);
    DistinctPush(s, key);
    LinkedIntro(m', Some(key), if head.Some? then tail else Some(key), r);
    SetPrevKeeps(m, head, Some(key));
  }

  ghost predicate Keyed(m: map<Key, Node>, s: seq<Key>) {
    forall k :: k in m <==> k in s
  }

  lemma {:induction false} AlreadyFirst(m: map<Key, Node>, head: Option<Key>, tail: Option<Key>, s: seq<Key>, key: Key)
    requires Linked(m, head, tail, s) && head == Some(key)
    ensures [key] + Without(s, key) == s
  {
  }

  lemma {:induction false} InFront(s: seq<Key>, r: seq<Key>, key: Key)
    requires key in s && forall k :: k in r <==> k in s && k != key
    ensures forall k :: k in [key] + r <==> k in s
  {
  }

  lemma {:induction false} EntriesKeys(m: map<Key, Node>)
    ensures Entries(m).Keys == m.Keys && forall k :: k in m ==> Entries(m)[k] == m[k].entry
  {
  }

  lemma {:induction false} EntryAdded(m: map<Key, Node>, key: Key, node: Node)
    ensures Entries(m[key := node]) == Entries(m)[key := node.entry]
  {
  }

  lemma {:induction false} EntryKept(m: map<Key, Node>, key: Key, node: Node)
    requires key in m && node.entry == m[key].entry
    ensures Entries(m[key := node]) == Entries(m)
  {
  }

  lemma {:induction false} EntryReplaced(m: map<Key, Node>, head: Option<Key>, tail: Option<Key>, s: seq<Key>,
      key: Key, e: Entry)
    requires Linked(m, head, tail, s) && key in m
    ensures Linked(m[key := m[key].(entry := e)], head, tail, s)
    ensures Entries(m[key := m[key].(entry := e)]) == Entries(m)[key := e]
  {
  }

  lemma {:induction false} DropKey(m: map<Key, Node>, head: Option<Key>, tail: Option<Key>, s: seq<Key>, key: Key)
    requires Linked(m, head, tail, s) && key !in s
    ensures Linked(m - {key}, head, tail, s) && Entries(m - {key}) == Entries(m) - {key}
  {
  }

  lemma {:induction false} TailIsLast(m: map<Key, Node>, head: Option<Key>, tail: Option<Key>, s: seq<Key>)
    requires Linked(m, head, tail, s)
    ensures |s| > 0 ==> tail == Some(s[|s| - 1]) && s[|s| - 1] in m
  {
  }

  lemma {:induction false} SetOfSeq(s: seq<Key>)
    requires Distinct(s)
    ensures |set k | k in s| == |s|
    decreases |s|
  {
    if |s| == 0 {
      assert (set k | k in s) == {};
    } else {
      SetOfSeq(s[1..]);
      assert (set k | k in s) == {s[0]} + (set k | k in s[1..]);
      assert s[0] !in s[1..];
    }
  }

  lemma {:induction false} SizeIsLength(m: map<Key, Node>, head: Option<Key>, tail: Option<Key>, s: seq<Key>)
    requires Linked(m, head, tail, s) && Keyed(m, s)
    ensures |m| == |s|
  {
    SetOfSeq(s);
    assert m.Keys == set k | k in s;
  }

  lemma {:induction false} ValidCoherent(m: map<Key, Node>, head: Option<Key>, tail: Option<Key>, s: seq<Key>, max: nat)
    requires Linked(m, head, tail, s) && Keyed(m, s) && max >= 1 && |s| <= max
    ensures Coherent(Lru(max, s, Entries(m)))
  {
  }

  lemma {:induction false} WithoutCons(first: Key, rest: seq<Key>, k: Key)
    requires first != k
    ensures Without([first] + rest, k) == [first] + Without(rest, k)
  {
    assert ([first] + rest)[1..] == rest;
  }

  lemma {:induction false} LastLeaves(c: Lru, k: Key)
    requires Coherent(c) && k !in c.held && |c.order| >= c.max
    ensures |c.order| > 0 && c.order[|c.order| - 1] in c.held && c.order[|c.order| - 1] != k
  {
    hide Distinct;
    assert c.order[|c.order| - 1] in c.order;
  }

  /** Inserting in front and then dropping the last key is dropping the last key first. */
  lemma {:induction false} InsertThenEvict(c: Lru, k: Key, e: Entry)
    requires Coherent(c) && k !in c.held
    ensures var full := c.(order := [k] + c.order, held := c.held[k := e]);
            AfterUpsert(c, k, e) == if |full.order| > c.max then Removed(full, full.order[|full.order| - 1]) else full
  {
    hide Coherent, Without;
    var full := c.(order := [k] + c.order, held := c.held[k := e]);
    if |full.order| > c.max {
      var last := full.order[|full.order| - 1];
      LastLeaves(c, k);
      WithoutCons(k, c.order, last);
      assert full.held - {last} == (c.held - {last})[k := e];
    }
  }

  class FastestIpCache {
    const maxSize: nat
    var head: Option<Key>
    var tail: Option<Key>
    var entries: map<Key, Node>
    ghost var order: seq<Key>

    ghost predicate Valid()
      reads this
    {
      maxSize >= 1 && |order| <= maxSize && Linked(entries, head, tail, order) && Keyed(entries, order)
    }

    ghost function Abs(): Lru
      reads this
    {
      Lru(maxSize, order, Entries(entries))
    }

    constructor WithMaxSize(maxSize: nat)
      ensures Valid() && Abs() == Lru(if maxSize > 1 then maxSize else 1, [], map[])
    {
      this.maxSize := if maxSize > 1 then maxSize else 1;
      head := None;
      tail := None;
      entries := map[];
      order := [];
    }

    method Detach(key: Key, prev: Option<Key>, next: Option<Key>)
      requires Linked(entries, head, tail, order) && key in order
      requires key in entries && prev == entries[key].prev && next == entries[key].next
      modifies this
      ensures Linked(entries, head, tail, order) && order == Without(old(order), key)
      ensures entries.Keys == old(entries.Keys) && Entries(entries) == Entries(old(entries))
      ensures key !in order && (forall k :: k in order <==> k in old(order) && k != key)
      ensures |order| == |old(order)| - 1
    {
      hide Linked, Entries, Distinct, Without;
      DetachLinks(entries, head, tail, order, key);
      order := Without(order, key);
      if prev.Some? {
        if prev.value in entries {
          entries := entries[prev.value := entries[prev.value].(next := next)];
        }
      } else {
        head := next;
      }
      if next.Some? {
        if next.value in entries {
          entries := entries[next.value := entries[next.value].(prev := prev)];
        }
      } else {
        tail := prev;
      }
      if key in entries {
        entries := entries[key := entries[key].(prev := None, next := None)];
      }
    }

    method MoveToFront(key: Key)
      requires Valid()
      modifies this
      ensures Valid() && Abs() == if key in old(entries) then Touched(old(Abs()), key) else old(Abs())
    {
      hide Linked, Entries, Distinct, Without;
      if head == Some(key) {
        AlreadyFirst(entries, head, tail, order, key);
        return;
      }
      if key !in entries {
        return;
      }
      var node := entries[key];
      ghost var s := order;
      Detach(key, node.prev, node.next);
      var oldHead := head;
      ghost var m := entries;
      ghost var r := order;
      entries := entries[key := entries[key].(prev := None, next := oldHead)];
      LinkedFrame(m, head, tail, r, key, entries[key]);
      EntryKept(m, key, entries[key]);
      PushLinks(entries, head, tail, r, key);
      if oldHead.Some? {
        if oldHead.value in entries {
          entries := entries[oldHead.value := entries[oldHead.value].(prev := Some(key))];
        }
      } else {
        tail := Some(key);
      }
      head := Some(key);
      order := [key] + r;
      InFront(s, r, key);
    }

    method Remove(key: Key) returns (r: Option<Entry>)
      requires Linked(entries, head, tail, order) && Keyed(entries, order)
      modifies this
      ensures Linked(entries, head, tail, order) && Keyed(entries, order)
      ensures Abs() == Removed(old(Abs()), key)
      ensures r == if key in old(entries) then Some(old(entries[key].entry)) else None
      ensures |order| == if key in old(entries) then |old(order)| - 1 else |old(order)|
    {
      hide Linked, Distinct, Without, Entries;
      EntriesKeys(entries);
      if key !in entries {
        return None;
      }
      var node := entries[key];
      Detach(key, node.prev, node.next);
      EntriesKeys(entries);
      r := Some(entries[key].entry);
      DropKey(entries, head, tail, order, key);
      entries := entries - {key};
    }

    method Get(key: Key, nowMs: nat) returns (r: Option<Entry>)
      requires Valid()
      modifies this
      ensures Valid() && Abs() == AfterGet(old(Abs()), key, nowMs)
      ensures r == GetResult(old(Abs()), key, nowMs)
    {
      hide Linked, Distinct, Without, Entries, Keyed, Removed, Touched;
      EntriesKeys(entries);
      if key !in entries {
        return None;
      }
      var node := entries[key];
      if node.entry.expireAtMs <= nowMs {
        var _ := Remove(key);
        return None;
      }
      MoveToFront(key);
      return Some(node.entry);
    }

    method EvictIfNeeded()
      requires maxSize >= 1 && |order| <= maxSize + 1
      requires Linked(entries, head, tail, order) && Keyed(entries, order)
      modifies this
      ensures Valid()
      ensures Abs() == if |old(order)| > maxSize then Removed(old(Abs()), old(order[|order| - 1])) else old(Abs())
    {
      hide Linked, Distinct, Without, Entries, Keyed, Removed;
      SizeIsLength(entries, head, tail, order);
      while |entries| > maxSize
        invariant Linked(entries, head, tail, order) && Keyed(entries, order)
        invariant |entries| == |order| <= maxSize + 1
        invariant if |old(order)| <= maxSize || |order| > maxSize then Abs() == old(Abs())
                  else Abs() == Removed(old(Abs()), old(order[|order| - 1]))
        decreases |order|
      {
        TailIsLast(entries, head, tail, order);
        if tail.None? {
          break;
        }
        var _ := Remove(tail.value);
        SizeIsLength(entries, head, tail, order);
      }
    }

    /** The part of upsert that hooks a new key in front. */
    method PushFront(key: Key, entry: Entry)
      requires Linked(entries, head, tail, order) && Keyed(entries, order) && key !in entries
      modifies this
      ensures Linked(entries, head, tail, order) && Keyed(entries, order)
      ensures order == [key] + old(order) && Entries(entries) == Entries(old(entries))[key := entry]
    {
      hide Linked, Entries;
      ghost var m := entries;
      var oldHead := head;
      ghost var s := order;
      entries := entries[key := Node(entry, None, oldHead)];
      LinkedFrame(m, head, tail, s, key, entries[key]);
      EntryAdded(m, key, entries[key]);
      PushLinks(entries, head, tail, s, key);
      if oldHead.Some? {
        if oldHead.value in entries {
          entries := entries[oldHead.value := entries[oldHead.value].(prev := Some(key))];
        }
      } else {
        tail := Some(key);
      }
      head := Some(key);
      order := [key] + s;
    }

    method Upsert(key: Key, entry: Entry)
      requires Valid()
      modifies this
      ensures Valid() && Abs() == AfterUpsert(old(Abs()), key, entry)
    {
      hide Linked, Distinct, Without, Entries, Removed, Coherent, Evicted;
      ghost var c := Abs();
      ghost var m := entries;
      EntriesKeys(entries);
      ValidCoherent(entries, head, tail, order, maxSize);
      if key in entries {
        entries := entries[key := entries[key].(entry := entry)];
        EntryReplaced(m, head, tail, order, key, entry);
        MoveToFront(key);
        return;
      }
      PushFront(key, entry);
      EvictIfNeeded();
      InsertThenEvict(c, key, entry);
    }
  }
}
