/** The buffer cache: NBUF buffers on a circular doubly linked list in order of last release.
    Pointers are indices into the array of buffers; index HEAD is bcache.head. */
module BufferCache {
  import opened Params
  import opened RedoLog

  const HEAD := NBUF
  const NODEV := 0
  const ROOTDEV := 1

  datatype Buf = Buf(valid: bool, dev: nat, blockno: nat, refcnt: nat, prev: nat, next: nat, data: WordBlock)

  // ---------- the list ----------

  ghost function Node(l: seq<nat>, k: int): nat {
    if 0 <= k < |l| then l[k] else HEAD
  }

  /** The list threaded through s visits exactly the buffers l, in that order, both ways. */
  ghost predicate Ring(s: seq<Buf>, l: seq<nat>) {
    && |s| == NBUF + 1
    && (forall k :: 0 <= k < |l| ==> l[k] < NBUF)
    && Distinct(l)
    && (forall k :: 0 <= k <= |l| ==> s[Node(l, k - 1)].next == Node(l, k))
    && (forall k :: 0 <= k <= |l| ==> s[Node(l, k)].prev == Node(l, k - 1))
  }

  /** What relinking leaves alone. */
  function Contents(x: Buf): (bool, nat, nat, WordBlock) {
    (x.valid, x.dev, x.blockno, x.data)
  }

  ghost predicate Relinked(s: seq<Buf>, t: seq<Buf>) {
    |s| == |t| && forall i :: 0 <= i < |s| ==> Contents(s[i]) == Contents(t[i]) && s[i].refcnt == t[i].refcnt
  }

  predicate InBounds(s: seq<Buf>, b: nat) {
    b < |s| && s[b].next < |s| && s[b].prev < |s|
  }

  function Unlink(s: seq<Buf>, b: nat): (r: seq<Buf>)
    requires InBounds(s, b)
    ensures Relinked(s, r)
  {
    var t := s[s[b].next := s[s[b].next].(prev := s[b].prev)];
    t[t[b].prev := t[t[b].prev].(next := t[b].next)]
  }

  function PushFront(s: seq<Buf>, b: nat): (r: seq<Buf>)
    requires |s| == NBUF + 1 && b < NBUF && s[HEAD].next <= NBUF
    ensures Relinked(s, r)
  {
    var t := s[b := s[b].(next := s[HEAD].next, prev := HEAD)];
    var u := t[t[HEAD].next := t[t[HEAD].next].(prev := b)];
    u[HEAD := u[HEAD].(next := b)]
  }

  ghost function Without(l: seq<nat>, k: nat): seq<nat>
    requires k < |l|
  {
    l[..k] + l[k + 1..]
  }

  lemma UnlinkRing(s: seq<Buf>, l: seq<nat>, k: nat)
    requires Ring(s, l) && k < |l|
    ensures InBounds(s, l[k]) && Ring(Unlink(s, l[k]), Without(l, k)) && l[k] !in Without(l, k)
    ensures Unlink(s, l[k])[HEAD].next <= NBUF
  {
    assert s[Node(l, k)].prev == Node(l, k - 1);
    assert s[Node(l, (k + 1) - 1)].next == Node(l, k + 1);
    var t, m := Unlink(s, l[k]), Without(l, k);
    forall j | 0 <= j <= |m|
      ensures t[Node(m, j - 1)].next == Node(m, j)
    {
      UnlinkNext(s, l, k, j);
    }
    forall j | 0 <= j <= |m|
      ensures t[Node(m, j)].prev == Node(m, j - 1)
    {
      UnlinkPrev(s, l, k, j);
    }
    assert t[Node(m, 0 - 1)].next == Node(m, 0);
  }

  lemma UnlinkNext(s: seq<Buf>, l: seq<nat>, k: nat, j: nat)
    requires Ring(s, l) && k < |l| && j < |l| && InBounds(s, l[k])
    ensures var m := Without(l, k); Unlink(s, l[k])[Node(m, j - 1)].next == Node(m, j)
  {
    assert s[Node(l, (k + 1) - 1)].next == Node(l, k + 1);
    assert s[Node(l, k)].prev == Node(l, k - 1);
    assert s[Node(l, j - 1)].next == Node(l, j);
    assert s[Node(l, (j + 1) - 1)].next == Node(l, j + 1);
  }

  lemma UnlinkPrev(s: seq<Buf>, l: seq<nat>, k: nat, j: nat)
    requires Ring(s, l) && k < |l| && j < |l| && InBounds(s, l[k])
    ensures var m := Without(l, k); Unlink(s, l[k])[Node(m, j)].prev == Node(m, j - 1)
  {
    assert s[Node(l, (k + 1) - 1)].next == Node(l, k + 1);
    assert s[Node(l, k)].prev == Node(l, k - 1);
    assert s[Node(l, j)].prev == Node(l, j - 1);
    assert s[Node(l, j + 1)].prev == Node(l, (j + 1) - 1);
  }

  lemma PushFrontRing(s: seq<Buf>, l: seq<nat>, b: nat)
    requires Ring(s, l) && b < NBUF && b !in l
    ensures s[HEAD].next <= NBUF && Ring(PushFront(s, b), [b] + l)
  {
    assert s[Node(l, 0 - 1)].next == Node(l, 0);
    var t, m := PushFront(s, b), [b] + l;
    forall j | 0 <= j <= |m|
      ensures t[Node(m, j - 1)].next == Node(m, j)
      ensures t[Node(m, j)].prev == Node(m, j - 1)
    {
      assert Node(m, j) == if j == 0 then b else Node(l, j - 1);
      if j > 0 {
        assert Node(m, j - 1) == if j == 1 then b else Node(l, j - 2);
        assert s[Node(l, (j - 1) - 1)].next == Node(l, j - 1);
        assert s[Node(l, j - 1)].prev == Node(l, (j - 1) - 1);
      }
    }
  }

  ghost predicate Distinct(l: seq<nat>) {
    forall j, k :: 0 <= j < k < |l| ==> l[j] != l[k]
  }

  /** n distinct numbers below n are all of them. */
  lemma {:induction false} Pigeonhole(l: seq<nat>, n: nat, b: nat)
    requires |l| == n && b < n && Distinct(l)
    requires forall k :: 0 <= k < n ==> l[k] < n
    ensures b in l
    decreases n
  {
    if k :| 0 <= k < n && l[k] == n - 1 {
      if b < n - 1 {
        Pigeonhole(Without(l, k), n - 1, b);
      }
    } else {
      Pigeonhole(l[..n - 1], n - 1, l[n - 1]);
    }
  }

  /** Every buffer appears on a list of NBUF distinct buffers. */
  lemma AllListed(l: seq<nat>, b: nat)
    requires |l| == NBUF && b < NBUF && Distinct(l)
    requires forall k :: 0 <= k < |l| ==> l[k] < NBUF
    ensures b in l
  {
    Pigeonhole(l, NBUF, b);
  }

  // ---------- what the cache promises about contents ----------

  /** slot says which buffer caches a block; no block is in two buffers; refs are the references
      held, by block; view is what a reader sees; a block nobody references agrees with the disk,
      so that its buffer can be recycled. */
  ghost predicate Agree(s: seq<Buf>, slot: map<nat, nat>, refs: multiset<nat>, view: Image, disk: Image) {
    && |s| == NBUF + 1 && |view| == |disk|
    && (forall i {:trigger Placed(s, i, slot, refs)} :: 0 <= i < NBUF ==> Placed(s, i, slot, refs))
    && (forall b {:trigger Cached(s, b, slot, view, disk)} :: b in slot ==> Cached(s, b, slot, view, disk))
    && (forall b :: b in refs ==> b in slot)
    && (forall b :: 0 <= b < |disk| && b !in refs ==> view[b] == disk[b])
  }

  ghost predicate Placed(s: seq<Buf>, i: nat, slot: map<nat, nat>, refs: multiset<nat>) {
    && i < |s|
    && if s[i].dev == ROOTDEV then s[i].blockno in slot && slot[s[i].blockno] == i && s[i].refcnt == refs[s[i].blockno]
       else s[i].dev == NODEV && s[i].refcnt == 0
  }

  ghost predicate Cached(s: seq<Buf>, b: nat, slot: map<nat, nat>, view: Image, disk: Image) {
    && b < |disk| == |view| && b in slot && slot[b] < NBUF < |s|
    && s[slot[b]].dev == ROOTDEV && s[slot[b]].blockno == b
    && view[b] == if s[slot[b]].valid then s[slot[b]].data else disk[b]
  }

  /** The list is in order of last release, most recent first. */
  ghost predicate Aged(l: seq<nat>, stamp: seq<nat>, clock: nat) {
    && |stamp| == NBUF
    && (forall i :: 0 <= i < NBUF ==> stamp[i] < clock)
    && (forall j, k :: 0 <= j < k < |l| && l[j] < NBUF && l[k] < NBUF ==> stamp[l[k]] < stamp[l[j]])
  }

  ghost predicate Unreferenced(s: seq<Buf>, i: int) {
    0 <= i < NBUF < |s| && s[i].refcnt == 0
  }

  lemma LinksKept(s: seq<Buf>, t: seq<Buf>, l: seq<nat>)
    requires Ring(s, l) && |s| == |t|
    requires forall i :: 0 <= i < |s| ==> s[i].next == t[i].next && s[i].prev == t[i].prev
    ensures Ring(t, l)
  {
  }

  lemma RelinkedAgrees(s: seq<Buf>, t: seq<Buf>, slot: map<nat, nat>, refs: multiset<nat>, view: Image, disk: Image)
    requires Agree(s, slot, refs, view, disk) && Relinked(s, t)
    ensures Agree(t, slot, refs, view, disk)
  {
    forall b | b in slot
      ensures Cached(t, b, slot, view, disk)
    {
      assert Cached(s, b, slot, view, disk);
      assert Contents(s[slot[b]]) == Contents(t[slot[b]]);
    }
    forall i | 0 <= i < NBUF
      ensures Placed(t, i, slot, refs)
    {
      assert Placed(s, i, slot, refs);
      assert Contents(s[i]) == Contents(t[i]);
    }
  }

  lemma Recounted(s: seq<Buf>, t: seq<Buf>, slot: map<nat, nat>, refs: multiset<nat>, view: Image, disk: Image, b: nat,
                  c: nat)
    requires Agree(s, slot, refs, view, disk) && b < NBUF && s[b].dev == ROOTDEV
    requires t == s[b := s[b].(refcnt := c)]
    requires s[b].blockno < |view| && c == 0 ==> view[s[b].blockno] == disk[s[b].blockno]
    ensures Agree(t, slot, refs[s[b].blockno := c], view, disk)
  {
    var x := s[b].blockno;
    assert Placed(s, b, slot, refs) && Cached(s, x, slot, view, disk);
    var recounted := refs[x := c];
    forall i | 0 <= i < NBUF
      ensures Placed(t, i, slot, recounted)
    {
      assert Placed(s, i, slot, refs);
    }
    forall y | y in slot
      ensures Cached(t, y, slot, view, disk)
    {
      assert Cached(s, y, slot, view, disk);
    }
  }

  ghost function Rebind(s: seq<Buf>, slot: map<nat, nat>, b: nat, blockno: nat): map<nat, nat>
    requires b < |s|
  {
    (if s[b].dev == ROOTDEV then slot - {s[b].blockno} else slot)[blockno := b]
  }

  lemma Recycled(s: seq<Buf>, t: seq<Buf>, slot: map<nat, nat>, refs: multiset<nat>, view: Image, disk: Image, b: nat,
                 blockno: nat)
    requires Agree(s, slot, refs, view, disk) && b < NBUF && s[b].refcnt == 0
    requires blockno !in slot && blockno < |disk|
    requires t == s[b := s[b].(dev := ROOTDEV, blockno := blockno, valid := false, refcnt := 1)]
    ensures Agree(t, Rebind(s, slot, b, blockno), refs + multiset{blockno}, view, disk)
  {
    var m := Rebind(s, slot, b, blockno);
    assert Placed(s, b, slot, refs);
    forall i | 0 <= i < NBUF
      ensures Placed(t, i, m, refs + multiset{blockno})
    {
      assert Placed(s, i, slot, refs);
    }
    forall y | y in m
      ensures Cached(t, y, m, view, disk)
    {
      assert y != blockno ==> Cached(s, y, slot, view, disk);
    }
  }

  lemma Filled(s: seq<Buf>, t: seq<Buf>, slot: map<nat, nat>, refs: multiset<nat>, view: Image, disk: Image, b: nat)
    requires Agree(s, slot, refs, view, disk) && b < NBUF && s[b].dev == ROOTDEV && !s[b].valid
    requires s[b].blockno < |disk| && t == s[b := s[b].(data := disk[s[b].blockno], valid := true)]
    ensures Agree(t, slot, refs, view, disk) && view[s[b].blockno] == disk[s[b].blockno]
  {
    assert Placed(s, b, slot, refs) && Cached(s, s[b].blockno, slot, view, disk);
    forall i | 0 <= i < NBUF
      ensures Placed(t, i, slot, refs)
    {
      assert Placed(s, i, slot, refs);
    }
    forall y | y in slot
      ensures Cached(t, y, slot, view, disk)
    {
      assert Cached(s, y, slot, view, disk);
    }
  }

  lemma Edited(s: seq<Buf>, t: seq<Buf>, slot: map<nat, nat>, refs: multiset<nat>, view: Image, disk: Image, b: nat,
               data: WordBlock)
    requires Agree(s, slot, refs, view, disk) && b < NBUF && s[b].dev == ROOTDEV && s[b].valid && s[b].refcnt > 0
    requires t == s[b := s[b].(data := data)]
    ensures s[b].blockno < |view| && Agree(t, slot, refs, view[s[b].blockno := data], disk)
  {
    var x := s[b].blockno;
    assert Placed(s, b, slot, refs) && Cached(s, x, slot, view, disk);
    forall i | 0 <= i < NBUF
      ensures Placed(t, i, slot, refs)
    {
      assert Placed(s, i, slot, refs);
    }
    forall y | y in slot
      ensures Cached(t, y, slot, view[x := data], disk)
    {
      assert Cached(s, y, slot, view, disk);
    }
  }

  lemma Flushed(s: seq<Buf>, slot: map<nat, nat>, refs: multiset<nat>, view: Image, disk: Image, b: nat)
    requires Agree(s, slot, refs, view, disk) && b < NBUF && s[b].dev == ROOTDEV && s[b].valid
    ensures s[b].blockno < |disk| && view[s[b].blockno] == s[b].data
    ensures Agree(s, slot, refs, view, disk[s[b].blockno := s[b].data])
  {
    var x := s[b].blockno;
    assert Placed(s, b, slot, refs) && Cached(s, x, slot, view, disk);
    forall y | y in slot
      ensures Cached(s, y, slot, view, disk[x := s[b].data])
    {
      assert Cached(s, y, slot, view, disk);
    }
  }

  /** As long as fewer references are held than there are buffers, one can be recycled. */
  lemma FewReferences(s: seq<Buf>, slot: map<nat, nat>, refs: multiset<nat>, view: Image, disk: Image)
    requires Agree(s, slot, refs, view, disk) && |refs| < NBUF
    ensures exists i :: Unreferenced(s, i)
  {
    if !exists i :: Unreferenced(s, i) {
      var q := seq(NBUF, i requires 0 <= i < NBUF => s[i].blockno);
      forall i | 0 <= i < NBUF
        ensures q[i] in refs && slot[q[i]] == i
      {
        assert Placed(s, i, slot, refs) && !Unreferenced(s, i);
      }
      DistinctMultiset(q, refs);
      assert refs == multiset(q) + (refs - multiset(q));
    }
  }

  lemma {:induction false} DistinctMultiset(q: seq<nat>, m: multiset<nat>)
    requires Distinct(q) && forall i :: 0 <= i < |q| ==> q[i] in m
    ensures multiset(q) <= m
  {
    if q != [] {
      var p, x := q[..|q| - 1], q[|q| - 1];
      assert q == p + [x];
      assert x !in p;
      DistinctMultiset(p, m);
    }
  }

  /** When NBUF different blocks are referenced, no other block can be read. */
  lemma AllReferenced(s: seq<Buf>, slot: map<nat, nat>, refs: multiset<nat>, view: Image, disk: Image, l: seq<nat>)
    requires Agree(s, slot, refs, view, disk) && |l| == NBUF && Distinct(l)
    requires forall k :: 0 <= k < NBUF ==> l[k] in refs
    ensures forall i :: !Unreferenced(s, i)
    ensures forall b :: b in slot ==> b in l
  {
    var q: seq<nat> := seq(NBUF, k requires 0 <= k < NBUF => slot[l[k]]);
    forall k | 0 <= k < NBUF
      ensures q[k] < NBUF && s[q[k]].blockno == l[k]
    {
      assert Cached(s, l[k], slot, view, disk);
    }
    forall b | b in slot
      ensures b in l
    {
      assert Cached(s, b, slot, view, disk);
      AllListed(q, slot[b]);
    }
    forall i | 0 <= i < NBUF
      ensures !Unreferenced(s, i)
    {
      AllListed(q, i);
      assert Placed(s, i, slot, refs);
      var k :| 0 <= k < NBUF && q[k] == i;
      assert Cached(s, l[k], slot, view, disk);
    }
  }

  lemma NewlyReleased(l: seq<nat>, k: nat, stamp: seq<nat>, clock: nat)
    requires Aged(l, stamp, clock) && k < |l| && Distinct(l) && forall j :: 0 <= j < |l| ==> l[j] < NBUF
    ensures Aged([l[k]] + Without(l, k), stamp[l[k] := clock], clock + 1)
  {
  }

  class Cache {
    const buf: array<Buf>
    var disk: Image
    ghost var writes: seq<Image>    // the disk after each block write since boot
    ghost var lru: seq<nat>         // head.next first
    ghost var slot: map<nat, nat>
    ghost var refs: multiset<nat>   // the references held, by block
    ghost var view: Image           // what a reader sees in each block
    ghost var stamp: seq<nat>       // when each buffer was last released
    ghost var clock: nat

    ghost predicate Valid()
      reads this, buf
    {
      && buf.Length == NBUF + 1
      && |lru| == NBUF
      && Ring(buf[..], lru)
      && Aged(lru, stamp, clock)
      && Agree(buf[..], slot, refs, view, disk)
    }

    /** The buffers as binit leaves them, over the disk found at boot. */
    constructor (image: Image)
      ensures Valid() && fresh(buf)
      ensures disk == view == image && writes == [] && slot == map[] && refs == multiset{}
    {
      var zero: WordBlock := seq(BLOCKWORDS, _ => 0);
      buf := new Buf[NBUF + 1](_ => Buf(false, NODEV, 0, 0, HEAD, HEAD, zero));
      disk, view, writes, slot, refs := image, image, [], map[], multiset{};
      stamp, clock := seq(NBUF, i requires 0 <= i => i), NBUF;
      lru := [];
      new;
      for b := 0 to NBUF
        invariant |lru| == b && Ring(buf[..], lru)
        invariant forall k :: 0 <= k < b ==> lru[k] == b - 1 - k
        invariant forall i :: 0 <= i < NBUF ==> buf[i].dev == NODEV && buf[i].refcnt == 0
        modifies this`lru, buf
      {
        ghost var was := buf[..];
        PushFrontRing(was, lru, b);
        Attach(b);
        lru := [b] + lru;
      }
    }

    ghost predicate Holds(b: nat, blockno: nat)
      reads buf
    {
      b < NBUF < buf.Length && buf[b].dev == ROOTDEV && buf[b].blockno == blockno
    }

    /** First loop of bget: walk the list from the front for a cached copy. */
    method FindCached(blockno: nat) returns (b: nat)
      requires Valid()
      ensures b == if blockno in slot then slot[blockno] else HEAD
      ensures blockno in slot ==> slot[blockno] < NBUF
    {
      assert buf[..][Node(lru, 0 - 1)].next == Node(lru, 0);
      b := buf[HEAD].next;
      ghost var k := 0;
      while b != HEAD
        invariant 0 <= k <= NBUF && b == Node(lru, k)
        invariant forall j :: 0 <= j < k ==> !Holds(lru[j], blockno)
        decreases NBUF - k
      {
        if buf[b].dev == ROOTDEV && buf[b].blockno == blockno {
          assert Placed(buf[..], b, slot, refs);
          return;
        }
        assert buf[..][Node(lru, (k + 1) - 1)].next == Node(lru, k + 1);
        b := buf[b].next;
        k := k + 1;
      }
      if blockno in slot {
        assert Cached(buf[..], blockno, slot, view, disk);
        AllListed(lru, slot[blockno]);
        assert Holds(slot[blockno], blockno);
      }
    }

    /** Second loop of bget: walk the list from the back for a buffer without references. */
    method FindUnused() returns (b: nat)
      requires Valid()
      ensures b != HEAD ==> Unreferenced(buf[..], b) && forall i :: Unreferenced(buf[..], i) ==> stamp[b] <= stamp[i]
      ensures b == HEAD ==> forall i :: !Unreferenced(buf[..], i)
    {
      assert buf[..][Node(lru, NBUF)].prev == Node(lru, NBUF - 1);
      b := buf[HEAD].prev;
      ghost var k := NBUF - 1;
      while b != HEAD
        invariant -1 <= k < NBUF && b == Node(lru, k)
        invariant forall j :: k < j < NBUF ==> !Unreferenced(buf[..], lru[j])
        decreases k
      {
        if buf[b].refcnt == 0 {
          forall i | Unreferenced(buf[..], i)
            ensures stamp[b] <= stamp[i]
          {
            AllListed(lru, i);
          }
          return;
        }
        assert buf[..][Node(lru, k)].prev == Node(lru, k - 1);
        b := buf[b].prev;
        k := k - 1;
      }
      forall i | Unreferenced(buf[..], i)
        ensures false
      {
        AllListed(lru, i);
      }
    }

    /** Change the reference count of b, and nothing else. */
    method Recount(b: nat, refcnt: nat)
      requires Valid() && b < NBUF && buf[b].dev == ROOTDEV
      requires buf[b].blockno < |disk| && refcnt == 0 ==> view[buf[b].blockno] == disk[buf[b].blockno]
      modifies this`refs, buf
      ensures Valid()
      ensures buf[..] == old(buf[..])[b := old(buf[b]).(refcnt := refcnt)]
      ensures refs == old(refs)[buf[b].blockno := refcnt] && old(refs)[buf[b].blockno] == old(buf[b].refcnt)
    {
      ghost var was := buf[..];
      buf[b] := buf[b].(refcnt := refcnt);
      assert Placed(was, b, slot, refs);
      Recounted(was, buf[..], slot, refs, view, disk, b, refcnt);
      LinksKept(was, buf[..], lru);
      refs := refs[buf[b].blockno := refcnt];
    }

    /** Give an unreferenced buffer to another block. */
    method Recycle(b: nat, blockno: nat)
      requires Valid() && Unreferenced(buf[..], b) && blockno < |disk| && blockno !in slot
      modifies this`slot, this`refs, buf
      ensures Valid()
      ensures buf[..] ==
                old(buf[..])[b := old(buf[b]).(dev := ROOTDEV, blockno := blockno, valid := false, refcnt := 1)]
      ensures refs == old(refs) + multiset{blockno}
    {
      ghost var was := buf[..];
      buf[b] := buf[b].(dev := ROOTDEV, blockno := blockno, valid := false, refcnt := 1);
      Recycled(was, buf[..], slot, refs, view, disk, b, blockno);
      LinksKept(was, buf[..], lru);
      slot, refs := Rebind(was, slot, b, blockno), refs + multiset{blockno};
    }

    /** Find or make a buffer for blockno and take a reference to it; ok is false where the
        source panics. A recycled buffer is the unreferenced one released longest ago. */
    method BGet(blockno: nat) returns (ok: bool, b: nat)
      requires Valid() && blockno < |disk|
      modifies this`slot, this`refs, buf
      ensures Valid()
      ensures ok == (blockno in old(slot) || exists i :: Unreferenced(old(buf[..]), i))
      ensures !ok ==> buf[..] == old(buf[..]) && slot == old(slot) && refs == old(refs)
      ensures ok ==> Holds(b, blockno) && refs == old(refs) + multiset{blockno}
      ensures ok ==> forall i :: 0 <= i < NBUF && i != b ==> buf[i] == old(buf[i])
      ensures ok && blockno in old(slot) ==>
                slot == old(slot) && b == slot[blockno] && buf[b] == old(buf[b]).(refcnt := old(buf[b].refcnt) + 1)
      ensures ok && blockno !in old(slot) ==>
                && Unreferenced(old(buf[..]), b) && !buf[b].valid
                && forall i :: Unreferenced(old(buf[..]), i) ==> stamp[b] <= stamp[i]
    {
      ghost var was := buf[..];
      b := FindCached(blockno);
      if b != HEAD {
        assert Cached(was, blockno, slot, view, disk);
        Recount(b, buf[b].refcnt + 1);
        return true, b;
      }
      assert blockno in slot ==> Cached(was, blockno, slot, view, disk);
      b := FindUnused();
      if b == HEAD {
        return false, b;
      }
      Recycle(b, blockno);
      ok := true;
    }

    /** A referenced buffer holding the current contents of blockno. */
    method BRead(blockno: nat) returns (ok: bool, b: nat)
      requires Valid() && blockno < |disk|
      modifies this`slot, this`refs, buf
      ensures Valid()
      ensures ok == (blockno in old(slot) || exists i :: Unreferenced(old(buf[..]), i))
      ensures !ok ==> buf[..] == old(buf[..]) && slot == old(slot) && refs == old(refs)
      ensures ok ==> Holds(b, blockno) && refs == old(refs) + multiset{blockno}
      ensures ok ==> buf[b].valid && buf[b].data == view[blockno]
      ensures ok && old(buf[b].refcnt) > 0 ==> old(Holds(b, blockno))
      ensures ok ==> forall i :: 0 <= i < NBUF && i != b ==> buf[i] == old(buf[i])
    {
      ok, b := BGet(blockno);
      assert ok ==> Placed(buf[..], b, slot, refs) && Cached(buf[..], blockno, slot, view, disk);
      if ok && !buf[b].valid {
        ghost var was := buf[..];
        buf[b] := buf[b].(data := disk[blockno], valid := true);
        Filled(was, buf[..], slot, refs, view, disk, b);
        LinksKept(was, buf[..], lru);
      }
    }

    /** The holder of b changes its contents in memory. */
    method Modify(b: nat, data: WordBlock)
      requires Valid() && b < NBUF && buf[b].refcnt > 0 && buf[b].valid
      modifies this`view, buf
      ensures Valid()
      ensures old(buf[b].blockno) < |old(view)| && view == old(view)[old(buf[b].blockno) := data]
      ensures buf[..] == old(buf[..])[b := old(buf[b]).(data := data)]
    {
      ghost var was := buf[..];
      assert Placed(was, b, slot, refs);
      buf[b] := buf[b].(data := data);
      Edited(was, buf[..], slot, refs, view, disk, b, data);
      LinksKept(was, buf[..], lru);
      view := view[was[b].blockno := data];
    }

    /** Write a referenced buffer to its disk block: one atomic step. */
    method BWrite(b: nat)
      requires Valid() && b < NBUF && buf[b].refcnt > 0 && buf[b].valid
      modifies this`disk, this`writes
      ensures Valid()
      ensures buf[b].blockno < |disk| && disk == old(disk)[buf[b].blockno := buf[b].data]
      ensures writes == old(writes) + [disk]
    {
      assert Placed(buf[..], b, slot, refs);
      Flushed(buf[..], slot, refs, view, disk, b);
      disk := disk[buf[b].blockno := buf[b].data];
      writes := writes + [disk];
    }

    method Detach(b: nat)
      requires InBounds(buf[..], b)
      modifies buf
      ensures buf[..] == Unlink(old(buf[..]), b)
    {
      buf[buf[b].next] := buf[buf[b].next].(prev := buf[b].prev);
      buf[buf[b].prev] := buf[buf[b].prev].(next := buf[b].next);
    }

    method Attach(b: nat)
      requires buf.Length == NBUF + 1 && b < NBUF && buf[HEAD].next <= NBUF
      modifies buf
      ensures buf[..] == PushFront(old(buf[..]), b)
    {
      buf[b] := buf[b].(next := buf[HEAD].next, prev := HEAD);
      buf[buf[HEAD].next] := buf[buf[HEAD].next].(prev := b);
      buf[HEAD] := buf[HEAD].(next := b);
    }

    /** Relink b at the front of the list. */
    method Relink(b: nat, ghost k: nat)
      requires Ring(buf[..], lru) && buf.Length == NBUF + 1 && k < |lru| && b == lru[k]
      modifies this`lru, buf
      ensures lru == [b] + Without(old(lru), k)
      ensures Ring(buf[..], lru) && Relinked(old(buf[..]), buf[..])
    {
      ghost var s := buf[..];
      UnlinkRing(s, lru, k);
      PushFrontRing(Unlink(s, b), Without(lru, k), b);
      Detach(b);
      Attach(b);
      lru := [b] + Without(lru, k);
    }

    method MoveToFront(b: nat)
      requires Valid() && b < NBUF
      modifies this`lru, this`stamp, this`clock, buf
      ensures Valid()
      ensures Relinked(old(buf[..]), buf[..])
      ensures forall i :: 0 <= i < NBUF && i != b ==> stamp[i] < stamp[b] && stamp[i] == old(stamp[i])
    {
      AllListed(lru, b);
      ghost var k :| 0 <= k < NBUF && lru[k] == b;
      NewlyReleased(lru, k, stamp, clock);
      Relink(b, k);
      RelinkedAgrees(old(buf[..]), buf[..], slot, refs, view, disk);
      stamp, clock := stamp[b := clock], clock + 1;
    }

    /** Drop a reference. The last one may go only when the contents are safe on disk; the buffer
        then becomes the most recently released one. */
    method BRelse(b: nat)
      requires Valid() && b < NBUF && buf[b].refcnt > 0
      requires buf[b].refcnt == 1 && buf[b].blockno < |disk| ==> view[buf[b].blockno] == disk[buf[b].blockno]
      modifies this`refs, this`lru, this`stamp, this`clock, buf
      ensures Valid()
      ensures Relinked(old(buf[..])[b := old(buf[b]).(refcnt := old(buf[b].refcnt) - 1)], buf[..])
      ensures refs == old(refs) - multiset{buf[b].blockno}
      ensures old(buf[b].refcnt) > 1 ==> lru == old(lru) && stamp == old(stamp)
      ensures old(buf[b].refcnt) == 1 ==>
                forall i :: 0 <= i < NBUF && i != b ==> stamp[i] < stamp[b] && stamp[i] == old(stamp[i])
    {
      assert Placed(buf[..], b, slot, refs);
      Recount(b, buf[b].refcnt - 1);
      assert refs == old(refs) - multiset{buf[b].blockno};
      if buf[b].refcnt == 0 {
        MoveToFront(b);
      }
    }

    method BPin(b: nat)
      requires Valid() && b < NBUF && buf[b].refcnt > 0
      modifies this`refs, buf
      ensures Valid()
      ensures buf[..] == old(buf[..])[b := old(buf[b]).(refcnt := old(buf[b].refcnt) + 1)]
      ensures refs == old(refs) + multiset{buf[b].blockno}
    {
      assert Placed(buf[..], b, slot, refs);
      Recount(b, buf[b].refcnt + 1);
    }

    method BUnpin(b: nat)
      requires Valid() && b < NBUF && buf[b].refcnt > 1
      modifies this`refs, buf
      ensures Valid()
      ensures buf[..] == old(buf[..])[b := old(buf[b]).(refcnt := old(buf[b].refcnt) - 1)]
      ensures refs == old(refs) - multiset{buf[b].blockno}
    {
      assert Placed(buf[..], b, slot, refs);
      Recount(b, buf[b].refcnt - 1);
    }
  }
}
