/** User memory as bytes, and the copies between it and the kernel that fill it in lazily. */
module UserMemory {
  import opened Basics
  import opened Sv39
  import opened PageTables
  import opened AddressSpaces
  import opened PageCosts
  import opened Vm

  function PageByte(m: Memory, p: nat, i: nat): nat {
    if p in m && m[p].Data? && i < |m[p].bytes| then m[p].bytes[i] else 0
  }

  /** The byte a process sees at va; a page that is not mapped yet reads as zero. */
  function UByte(m: Memory, b: Book, root: nat, va: nat): nat {
    if root in b.flat && va / PGSIZE in b.flat[root] then PageByte(m, b.flat[root][va / PGSIZE].ppn, va % PGSIZE) else 0
  }

  /** User code cannot access the two kernel pages of its table; the kernel runs the one and writes the other. */
  predicate KernelOnly(v: nat, f: Flags) {
    !f.u && f.r && (if v == VTRAMPOLINE then f.x && !f.w else f.w && !f.x)
  }

  /** The table of a process of size sz: user pages below sz, and kernel pages it cannot access. */
  ghost predicate ProcTable(b: Book, root: nat, sz: nat) {
    && root in b.flat && RoundUp(sz) <= TRAPFRAME
    && forall v {:trigger v in b.flat[root]} :: v in b.flat[root] ==>
         if Special(v) then KernelOnly(v, b.flat[root][v].flags) else v < RoundUp(sz) / PGSIZE
  }

  /** A table made by proc_pagetable is that of a process of size 0. */
  lemma NewProcTable(b: Book, c: Book, root: nat, trampoline: nat, trapframe: nat)
    requires NewTable(b, c, root, KernelMap(trampoline, trapframe))
    ensures ProcTable(c, root, 0) && VTRAMPOLINE in c.flat[root] && VTRAPFRAME in c.flat[root]
    ensures c.flat[root][VTRAMPOLINE].ppn == trampoline && c.flat[root][VTRAPFRAME].ppn == trapframe
    ensures !UserLeaf(c, root, VTRAMPOLINE) && !UserLeaf(c, root, VTRAPFRAME)
  {
  }

  predicate WritableLeaf(b: Book, root: nat, vpn: nat) {
    root in b.flat && vpn in b.flat[root] && b.flat[root][vpn].flags.u && b.flat[root][vpn].flags.w
  }

  /** Mappings are kept, and only the table of root may have got new ones. Pages keep what they are for, but free ones
      may have become pages of that table: none is lost. */
  ghost predicate Faulted(b: Book, c: Book, root: nat) {
    && c.flat.Keys == b.flat.Keys
    && (forall r {:trigger c.flat[r]} :: r in b.flat && r != root ==> c.flat[r] == b.flat[r])
    && (root in b.flat ==> forall v {:trigger v in c.flat[root]} {:trigger c.flat[root][v]} ::
          v in b.flat[root] ==> v in c.flat[root] && c.flat[root][v] == b.flat[root][v])
    && c.role.Keys == b.role.Keys
    && (forall p {:trigger c.role[p]} :: p in b.role ==>
          c.role[p] == b.role[p] || (b.role[p] == Free && Owned(c.role[p], root)))
  }

  /** Pages that the kernel holds, and goes on holding, keep their contents. */
  ghost predicate HeldKept(m: Memory, b: Book, n: Memory, c: Book) {
    forall p: nat {:trigger IsHeld(c, p)} {:trigger IsHeld(b, p)} :: IsHeld(b, p) && IsHeld(c, p) ==>
      (p in m ==> p in n && n[p] == m[p])
  }

  /** The bytes [at, at + |src|) of root have become src, and no other byte of any process or of the kernel's pages
      has changed. */
  ghost predicate Wrote(m: Memory, b: Book, n: Memory, c: Book, root: nat, at: nat, src: seq<nat>) {
    HeldKept(m, b, n, c) &&
    forall r: nat, va: nat {:trigger UByte(n, c, r, va)} :: r in b.flat && va < TRAPFRAME ==>
      UByte(n, c, r, va) == if r == root && at <= va < at + |src| then src[va - at] else UByte(m, b, r, va)
  }

  lemma GrownBytes(m: Memory, head: nat, b: Book, n: Memory, c: Book, root: nat, at: nat)
    requires Inv(m, head, b) && Grown(b, c, root) && SameData(m, b, n)
    ensures Wrote(m, b, n, c, root, at, []) && Faulted(b, c, root)
  {
    forall r: nat, va: nat | r in b.flat && va < TRAPFRAME
      ensures UByte(n, c, r, va) == UByte(m, b, r, va)
    {
      assert va / PGSIZE in b.flat[r] ==> LeafOk(m, b, r, va / PGSIZE);
    }
  }

  lemma FreshBytes(m: Memory, head: nat, b: Book, n: Memory, c: Book, root: nat, v: nat, e: Pte, at: nat)
    requires Inv(m, head, b) && Fresh(b, c, root, v, e) && SameData(m, b, n) && v !in b.flat[root]
    requires e.ppn in n && n[e.ppn] == Data(Zeros())
    ensures Wrote(m, b, n, c, root, at, []) && Faulted(b, c, root)
  {
    forall r: nat, va: nat | r in b.flat && va < TRAPFRAME
      ensures UByte(n, c, r, va) == UByte(m, b, r, va)
    {
      assert va / PGSIZE in b.flat[r] ==> LeafOk(m, b, r, va / PGSIZE);
    }
  }

  /** One write after another. */
  lemma WroteMore(m: Memory, b: Book, n: Memory, c: Book, o: Memory, d: Book, root: nat, at: nat, src: seq<nat>,
                  more: seq<nat>)
    requires Faulted(b, c, root) && Faulted(c, d, root)
    requires Wrote(m, b, n, c, root, at, src) && Wrote(n, c, o, d, root, at + |src|, more)
    ensures Faulted(b, d, root) && Wrote(m, b, o, d, root, at, src + more)
  {
    forall r: nat, va: nat | r in b.flat && va < TRAPFRAME
      ensures UByte(o, d, r, va) == if r == root && at <= va < at + |src + more| then (src + more)[va - at]
                else UByte(m, b, r, va)
    {
      assert UByte(n, c, r, va) == if r == root && at <= va < at + |src| then src[va - at] else UByte(m, b, r, va);
    }
  }

  function Patched(bytes: seq<nat>, o: nat, src: seq<nat>): (s: seq<nat>)
    requires o + |src| <= |bytes|
    ensures |s| == |bytes|
  {
    bytes[..o] + src + bytes[o + |src|..]
  }

  /** Writing within one mapped page. */
  lemma PatchPage(m: Memory, head: nat, b: Book, root: nat, at: nat, src: seq<nat>)
    requires Inv(m, head, b) && root in b.flat && at / PGSIZE in b.flat[root] && !Special(at / PGSIZE)
    requires at % PGSIZE + |src| <= PGSIZE
    ensures UserPage(m, b, root, at / PGSIZE, b.flat[root][at / PGSIZE].ppn)
    ensures var p := b.flat[root][at / PGSIZE].ppn;
            var n := m[p := Data(Patched(m[p].bytes, at % PGSIZE, src))];
            Inv(n, head, b) && Wrote(m, b, n, b, root, at, src)
  {
    var v, o := at / PGSIZE, at % PGSIZE;
    var p := b.flat[root][v].ppn;
    assert LeafOk(m, b, root, v);
    SetBytes(m, head, b, root, v, Patched(m[p].bytes, o, src));
    var n := m[p := Data(Patched(m[p].bytes, o, src))];
    forall r: nat, va: nat | r in b.flat && va < TRAPFRAME
      ensures UByte(n, b, r, va) == if r == root && at <= va < at + |src| then src[va - at] else UByte(m, b, r, va)
    {
      assert va / PGSIZE in b.flat[r] ==> LeafOk(m, b, r, va / PGSIZE);
      assert at == v * PGSIZE + o && va == va / PGSIZE * PGSIZE + va % PGSIZE;
    }
  }

  lemma FaultedProc(b: Book, c: Book, root: nat, sz: nat, v: nat, e: Pte)
    requires ProcTable(b, root, sz) && Fresh(b, c, root, v, e) && !Special(v) && v < RoundUp(sz) / PGSIZE
    ensures ProcTable(c, root, sz)
  {
  }

  /** The page of va is one that vmfault maps: below sz, not mapped, and there is memory for it. */
  predicate Faultable(b: Book, root: nat, va: nat, sz: nat) {
    va < sz && root in b.flat && va / PGSIZE !in b.flat[root] && CanPay(b, PathTo(root, va / PGSIZE), 1)
  }

  /** Maps the page of va with a page of zeros, if it is below sz and not mapped. */
  method VmFault(k: Kernel, root: nat, va: nat, sz: nat) returns (p: nat)
    requires k.Valid() && ProcTable(k.book, root, sz)
    modifies k
    ensures k.Valid() && ProcTable(k.book, root, sz)
    ensures Faulted(old(k.book), k.book, root) && Wrote(old(k.mem), old(k.book), k.mem, k.book, root, va, [])
    ensures p == 0 ==> k.book.flat == old(k.book.flat)
    ensures p != 0 <==> Faultable(old(k.book), root, va, sz)
    ensures p != 0 ==>
              k.book.flat == Set(old(k.book).flat, root, va / PGSIZE, Pte(true, Flags(true, true, false, true, 0), p))
  {
    ghost var m, head, b := k.mem, k.freelist, k.book;
    if va >= sz {
      GrownBytes(m, head, b, m, b, root, va);
      return 0;
    }
    var va0 := va / PGSIZE * PGSIZE;
    assert va0 / PGSIZE == va / PGSIZE;
    var mapped := k.IsMapped(root, va0);
    if mapped {
      GrownBytes(m, head, b, m, b, root, va);
      return 0;
    }
    p := k.MapFresh(root, va0, Zeros(), Flags(true, true, false, true, 0));
    if p == 0 {
      GrownBytes(m, head, b, k.mem, k.book, root, va);
    } else {
      FreshBytes(m, head, b, k.mem, k.book, root, va / PGSIZE, Pte(true, Flags(true, true, false, true, 0), p), va);
      FaultedProc(b, k.book, root, sz, va / PGSIZE, Pte(true, Flags(true, true, false, true, 0), p));
    }
  }

  /** walkaddr, and vmfault when that finds nothing: the user page of va0, mapped if need be. */
  method UserPageFor(k: Kernel, root: nat, va0: nat, sz: nat) returns (p: nat)
    requires k.Valid() && ProcTable(k.book, root, sz) && va0 % PGSIZE == 0
    modifies k
    ensures k.Valid() && ProcTable(k.book, root, sz)
    ensures Faulted(old(k.book), k.book, root) && Wrote(old(k.mem), old(k.book), k.mem, k.book, root, va0, [])
    ensures p != 0 <==> UserLeaf(k.book, root, va0 / PGSIZE)
    ensures p != 0 ==> p == k.book.flat[root][va0 / PGSIZE].ppn && va0 < TRAPFRAME
    ensures UserLeaf(old(k.book), root, va0 / PGSIZE) ==> k.mem == old(k.mem) && k.book == old(k.book)
    ensures p != 0 <==> UserLeaf(old(k.book), root, va0 / PGSIZE) || Faultable(old(k.book), root, va0, sz)
    ensures p != 0 && !UserLeaf(old(k.book), root, va0 / PGSIZE) ==> WritableLeaf(k.book, root, va0 / PGSIZE)
  {
    ghost var v := va0 / PGSIZE;
    p := k.WalkAddr(root, va0);
    GrownBytes(k.mem, k.freelist, k.book, k.mem, k.book, root, va0);
    assert v in k.book.flat[root] ==> LeafOk(k.mem, k.book, root, v);
    if p == 0 {
      p := VmFault(k, root, va0, sz);
    }
  }

  lemma NoneAbove(m: Memory, head: nat, b: Book, root: nat, va: nat)
    requires Inv(m, head, b) && root in b.flat && va >= MAXVA
    ensures va / PGSIZE !in b.flat[root]
  {
    assert va / PGSIZE in b.flat[root] ==> LeafOk(m, b, root, va / PGSIZE);
  }

  /** copyout's search for the page of dstva: one that can be written, or 0. */
  method WritablePageFor(k: Kernel, root: nat, dstva: nat, sz: nat) returns (p: nat)
    requires k.Valid() && ProcTable(k.book, root, sz)
    modifies k
    ensures k.Valid() && ProcTable(k.book, root, sz) && Faulted(old(k.book), k.book, root)
    ensures Wrote(old(k.mem), old(k.book), k.mem, k.book, root, dstva, [])
    ensures p != 0 <==> WritableLeaf(k.book, root, dstva / PGSIZE)
    ensures p != 0 ==> p == k.book.flat[root][dstva / PGSIZE].ppn && dstva / PGSIZE * PGSIZE < TRAPFRAME
    ensures p != 0 <==> WritableLeaf(old(k.book), root, dstva / PGSIZE) ||
                        (dstva < MAXVA && Faultable(old(k.book), root, dstva / PGSIZE * PGSIZE, sz))
  {
    ghost var m0, b0 := k.mem, k.book;
    var va0 := dstva / PGSIZE * PGSIZE;
    assert va0 / PGSIZE == dstva / PGSIZE;
    if va0 >= MAXVA {
      GrownBytes(k.mem, k.freelist, k.book, k.mem, k.book, root, dstva);
      NoneAbove(k.mem, k.freelist, k.book, root, dstva);
      return 0;
    }
    p := UserPageFor(k, root, va0, sz);
    NothingAnywhere(m0, b0, k.mem, k.book, root, va0, dstva);
    if p == 0 {
      return;
    }
    var pte := k.WalkLeaf(root, va0);
    if !pte.flags.w {
      return 0;
    }
  }

  /** One round of copyout: the part of src that goes into the page of dstva. */
  method CopyOutPage(k: Kernel, root: nat, dstva: nat, src: seq<nat>, sz: nat) returns (ok: bool, n: nat)
    requires k.Valid() && ProcTable(k.book, root, sz) && src != []
    modifies k
    ensures k.Valid() && ProcTable(k.book, root, sz) && Faulted(old(k.book), k.book, root)
    ensures n <= |src| && Wrote(old(k.mem), old(k.book), k.mem, k.book, root, dstva, src[..n])
    ensures n == if ok then Min(PGSIZE - dstva % PGSIZE, |src|) else 0
    ensures ok <==> WritableLeaf(k.book, root, dstva / PGSIZE)
    ensures ok <==> WritableLeaf(old(k.book), root, dstva / PGSIZE) ||
                    (dstva < MAXVA && Faultable(old(k.book), root, dstva / PGSIZE * PGSIZE, sz))
  {
    ghost var m0, b0 := k.mem, k.book;
    assert src[..0] == [];
    var p := WritablePageFor(k, root, dstva, sz);
    if p == 0 {
      return false, 0;
    }
    n := PGSIZE - dstva % PGSIZE;
    if n > |src| {
      n := |src|;
    }
    PatchPage(k.mem, k.freelist, k.book, root, dstva, src[..n]);
    ghost var m1 := k.mem;
    k.mem := k.mem[p := Data(Patched(k.mem[p].bytes, dstva % PGSIZE, src[..n]))];
    WroteMore(m0, b0, m1, k.book, k.mem, k.book, root, dstva, [], src[..n]);
    assert [] + src[..n] == src[..n];
    ok := true;
  }

  lemma NothingAnywhere(m: Memory, b: Book, n: Memory, c: Book, root: nat, at: nat, to: nat)
    requires Wrote(m, b, n, c, root, at, [])
    ensures Wrote(m, b, n, c, root, to, [])
  {
  }

  predicate WritableAt(b: Book, root: nat, va: nat) {
    WritableLeaf(b, root, va / PGSIZE)
  }

  ghost predicate WritableRange(b: Book, root: nat, at: nat, n: nat) {
    forall va: nat {:trigger WritableAt(b, root, va)} :: at <= va < at + n ==> WritableAt(b, root, va)
  }

  lemma FaultedRange(b: Book, c: Book, root: nat, at: nat, n: nat)
    requires Faulted(b, c, root) && WritableRange(b, root, at, n)
    ensures WritableRange(c, root, at, n)
  {
    forall va: nat | at <= va < at + n
      ensures WritableAt(c, root, va)
    {
      assert WritableAt(b, root, va);
    }
  }

  lemma StillWritable(b: Book, c: Book, root: nat, at: nat, i: nat, n: nat)
    requires Faulted(b, c, root) && WritableRange(b, root, at, i)
    requires WritableLeaf(c, root, (at + i) / PGSIZE) && (at + i) % PGSIZE + n <= PGSIZE
    ensures WritableRange(c, root, at, i + n)
  {
    FaultedRange(b, c, root, at, i);
    forall va: nat | at + i <= va < at + i + n
      ensures WritableAt(c, root, va)
    {
      assert va / PGSIZE == (at + i) / PGSIZE;
    }
  }

  lemma WrotePiece(m: Memory, b: Book, n: Memory, c: Book, o: Memory, d: Book, root: nat, at: nat, src: seq<nat>,
                   i: nat, next: nat, count: nat)
    requires i + count <= |src| && next == at + i && Faulted(b, c, root) && Faulted(c, d, root)
    requires Wrote(m, b, n, c, root, at, src[..i]) && Wrote(n, c, o, d, root, next, src[i..][..count])
    ensures Faulted(b, d, root) && Wrote(m, b, o, d, root, at, src[..i + count])
  {
    WroteMore(m, b, n, c, o, d, root, at, src[..i], src[i..][..count]);
    assert src[..i] + src[i..][..count] == src[..i + count];
  }

  lemma NextAt(at: nat, n: nat, left: nat)
    requires n == Min(PGSIZE - at % PGSIZE, left)
    ensures n < left ==> at / PGSIZE * PGSIZE + PGSIZE == at + n
    ensures at % PGSIZE + n <= PGSIZE && (left > 0 ==> n > 0)
  {
  }

  /** Copies src to user memory at dstva; done bytes of it when it fails. */
  method CopyOut(k: Kernel, root: nat, dstva: nat, src: seq<nat>, sz: nat) returns (ok: bool, ghost done: nat)
    requires k.Valid() && ProcTable(k.book, root, sz)
    modifies k
    ensures k.Valid() && ProcTable(k.book, root, sz) && Faulted(old(k.book), k.book, root)
    ensures done <= |src| && (ok <==> done == |src|)
    ensures Wrote(old(k.mem), old(k.book), k.mem, k.book, root, dstva, src[..done])
    ensures WritableRange(k.book, root, dstva, done)
    ensures !ok ==> !WritableLeaf(k.book, root, (dstva + done) / PGSIZE)
  {
    ghost var m0, b0 := k.mem, k.book;
    var at, i := dstva, 0;
    GrownBytes(k.mem, k.freelist, k.book, k.mem, k.book, root, dstva);
    assert src[..0] == [];
    while i < |src|
      invariant i <= |src| && (i < |src| ==> at == dstva + i)
      invariant k.Valid() && ProcTable(k.book, root, sz) && Faulted(b0, k.book, root)
      invariant Wrote(m0, b0, k.mem, k.book, root, dstva, src[..i])
      invariant WritableRange(k.book, root, dstva, i)
    {
      ghost var m1, b1 := k.mem, k.book;
      var n;
      ok, n := CopyOutPage(k, root, at, src[i..], sz);
      WrotePiece(m0, b0, m1, b1, k.mem, k.book, root, dstva, src, i, at, n);
      if ok {
        StillWritable(b1, k.book, root, dstva, i, n);
      }
      if !ok {
        FaultedRange(b1, k.book, root, dstva, i);
        return false, i;
      }
      NextAt(at, n, |src| - i);
      at := at / PGSIZE * PGSIZE + PGSIZE;
      i := i + n;
    }
    assert src[..i] == src;
    return true, i;
  }

  /** The n bytes of user memory from at on. */
  function UBytes(m: Memory, b: Book, root: nat, at: nat, n: nat): (s: seq<nat>)
    ensures |s| == n && forall i :: 0 <= i < n ==> s[i] == UByte(m, b, root, at + i)
  {
    seq<nat>(n, i requires 0 <= i < n => UByte(m, b, root, at + i))
  }

  /** One round of copyin. */
  method CopyInPage(k: Kernel, root: nat, srcva: nat, len: nat, sz: nat) returns (ok: bool, part: seq<nat>)
    requires k.Valid() && ProcTable(k.book, root, sz) && len > 0
    modifies k
    ensures k.Valid() && ProcTable(k.book, root, sz) && Faulted(old(k.book), k.book, root)
    ensures Wrote(old(k.mem), old(k.book), k.mem, k.book, root, srcva, [])
    ensures |part| == if ok then Min(PGSIZE - srcva % PGSIZE, len) else 0
    ensures part == UBytes(k.mem, k.book, root, srcva, |part|) && (ok ==> srcva + |part| <= TRAPFRAME)
    ensures ok <==> UserLeaf(k.book, root, srcva / PGSIZE)
    ensures ok <==> UserLeaf(old(k.book), root, srcva / PGSIZE) ||
                    Faultable(old(k.book), root, srcva / PGSIZE * PGSIZE, sz)
    ensures UserLeaf(old(k.book), root, srcva / PGSIZE) ==> k.mem == old(k.mem) && k.book == old(k.book)
  {
    var va0 := srcva / PGSIZE * PGSIZE;
    assert va0 / PGSIZE == srcva / PGSIZE && srcva - va0 == srcva % PGSIZE;
    ghost var m0, b0 := k.mem, k.book;
    var p := UserPageFor(k, root, va0, sz);
    NothingAnywhere(m0, b0, k.mem, k.book, root, va0, srcva);
    if p == 0 {
      return false, [];
    }
    var n := PGSIZE - (srcva - va0);
    if n > len {
      n := len;
    }
    PatchPage(k.mem, k.freelist, k.book, root, srcva, []);
    part := k.mem[p].bytes[srcva - va0..srcva - va0 + n];
    SliceBytes(k.mem, k.book, root, srcva, n);
    ok := true;
  }

  lemma SliceBytes(m: Memory, b: Book, root: nat, at: nat, n: nat)
    requires root in b.flat && at / PGSIZE in b.flat[root] && at % PGSIZE + n <= PGSIZE
    requires var p := b.flat[root][at / PGSIZE].ppn; p in m && m[p].Data? && |m[p].bytes| == PGSIZE
    ensures m[b.flat[root][at / PGSIZE].ppn].bytes[at % PGSIZE..at % PGSIZE + n] == UBytes(m, b, root, at, n)
  {
    var bytes := m[b.flat[root][at / PGSIZE].ppn].bytes;
    var slice := bytes[at % PGSIZE..at % PGSIZE + n];
    forall i | 0 <= i < n
      ensures UByte(m, b, root, at + i) == slice[i]
    {
      assert (at + i) / PGSIZE == at / PGSIZE && (at + i) % PGSIZE == at % PGSIZE + i;
    }
  }

  /** A process sees the bytes of a mapped page in order. */
  lemma PageIsSeen(m: Memory, head: nat, b: Book, root: nat, v: nat)
    requires Inv(m, head, b) && root in b.flat && v in b.flat[root] && !Special(v)
    ensures var p := b.flat[root][v].ppn;
            UserPage(m, b, root, v, p) && UBytes(m, b, root, v * PGSIZE, PGSIZE) == m[p].bytes
  {
    var p := b.flat[root][v].ppn;
    assert LeafOk(m, b, root, v);
    SliceBytes(m, b, root, v * PGSIZE, PGSIZE);
    assert m[p].bytes[0..PGSIZE] == m[p].bytes;
  }

  ghost predicate ReadableRange(b: Book, root: nat, at: nat, n: nat) {
    forall va: nat {:trigger ReadableAt(b, root, va)} :: at <= va < at + n ==> ReadableAt(b, root, va)
  }

  ghost predicate ReadableAt(b: Book, root: nat, va: nat) {
    UserLeaf(b, root, va / PGSIZE)
  }

  lemma AppendBytes(m: Memory, b: Book, n: Memory, c: Book, root: nat, at: nat, dst: seq<nat>, next: nat,
                    part: seq<nat>)
    requires root in b.flat && Wrote(m, b, n, c, root, at, []) && next == at + |dst| && next + |part| <= TRAPFRAME
    requires dst == UBytes(m, b, root, at, |dst|) && part == UBytes(n, c, root, next, |part|)
    ensures dst + part == UBytes(m, b, root, at, |dst| + |part|)
  {
    forall x | 0 <= x < |part|
      ensures part[x] == UByte(m, b, root, at + |dst| + x)
    {
      assert part[x] == UByte(n, c, root, next + x);
    }
  }

  lemma ReadPiece(m: Memory, b: Book, n: Memory, c: Book, o: Memory, d: Book, root: nat, at: nat, next: nat,
                  dst: seq<nat>, part: seq<nat>)
    requires root in b.flat && Faulted(b, c, root) && Faulted(c, d, root) && next == at + |dst|
    requires Wrote(m, b, n, c, root, at, []) && Wrote(n, c, o, d, root, next, [])
    requires dst == UBytes(m, b, root, at, |dst|) && part == UBytes(o, d, root, next, |part|)
    requires part != [] ==> next + |part| <= TRAPFRAME
    ensures Faulted(b, d, root) && Wrote(m, b, o, d, root, at, [])
    ensures dst + part == UBytes(m, b, root, at, |dst + part|)
  {
    NothingAnywhere(n, c, o, d, root, next, at);
    WroteMore(m, b, n, c, o, d, root, at, [], []);
    if part == [] {
      assert dst + part == dst;
    } else {
      AppendBytes(m, b, o, d, root, at, dst, next, part);
    }
  }

  /** Reads len bytes of user memory, all of which are then mapped; user memory does not change. */
  method CopyIn(k: Kernel, root: nat, srcva: nat, len: nat, sz: nat) returns (ok: bool, dst: seq<nat>)
    requires k.Valid() && ProcTable(k.book, root, sz)
    modifies k
    ensures k.Valid() && ProcTable(k.book, root, sz) && Faulted(old(k.book), k.book, root)
    ensures Wrote(old(k.mem), old(k.book), k.mem, k.book, root, srcva, [])
    ensures |dst| <= len && (ok <==> |dst| == len)
    ensures dst == UBytes(old(k.mem), old(k.book), root, srcva, |dst|) && (dst != [] ==> srcva + |dst| <= TRAPFRAME)
    ensures ReadableRange(old(k.book), root, srcva, len) ==> ok && k.mem == old(k.mem) && k.book == old(k.book)
    ensures !ok ==> !UserLeaf(k.book, root, (srcva + |dst|) / PGSIZE)
  {
    ghost var m0, b0 := k.mem, k.book;
    var at := srcva;
    dst := [];
    GrownBytes(k.mem, k.freelist, k.book, k.mem, k.book, root, srcva);
    while |dst| < len
      invariant |dst| <= len && (|dst| < len ==> at == srcva + |dst|)
      invariant k.Valid() && ProcTable(k.book, root, sz) && Faulted(b0, k.book, root)
      invariant Wrote(m0, b0, k.mem, k.book, root, srcva, [])
      invariant dst == UBytes(m0, b0, root, srcva, |dst|) && (dst != [] ==> srcva + |dst| <= TRAPFRAME)
      invariant ReadableRange(b0, root, srcva, len) ==> k.mem == m0 && k.book == b0
      decreases len - |dst|
    {
      ghost var m1, b1 := k.mem, k.book;
      assert ReadableRange(b0, root, srcva, len) ==> ReadableAt(b0, root, at);
      var part;
      ok, part := CopyInPage(k, root, at, len - |dst|, sz);
      ReadPiece(m0, b0, m1, b1, k.mem, k.book, root, srcva, at, dst, part);
      if !ok {
        return;
      }
      NextAt(at, |part|, len - |dst|);
      dst := dst + part;
      at := at / PGSIZE * PGSIZE + PGSIZE;
    }
    ok := true;
  }

  /** What copyout has written can be read back. */
  lemma ReadBack(m: Memory, b: Book, n: Memory, c: Book, root: nat, at: nat, src: seq<nat>, sz: nat)
    requires ProcTable(c, root, sz) && root in b.flat && Wrote(m, b, n, c, root, at, src)
    requires WritableRange(c, root, at, |src|)
    ensures ReadableRange(c, root, at, |src|) && UBytes(n, c, root, at, |src|) == src
  {
    forall va: nat | at <= va < at + |src|
      ensures ReadableAt(c, root, va) && va < TRAPFRAME
    {
      assert WritableAt(c, root, va);
      assert va / PGSIZE in c.flat[root];
    }
    forall i | 0 <= i < |src|
      ensures UByte(n, c, root, at + i) == src[i]
    {
      assert ReadableAt(c, root, at + i);
    }
  }

  /** copyout changes no page that user code may not write. */
  lemma ReadOnlyStays(m: Memory, b: Book, n: Memory, c: Book, root: nat, at: nat, src: seq<nat>, va: nat)
    requires root in b.flat && Wrote(m, b, n, c, root, at, src) && WritableRange(c, root, at, |src|)
    requires root in c.flat && va / PGSIZE in c.flat[root] && va < TRAPFRAME
    requires !(c.flat[root][va / PGSIZE].flags.u && c.flat[root][va / PGSIZE].flags.w)
    ensures UByte(n, c, root, va) == UByte(m, b, root, va)
  {
    assert at <= va < at + |src| ==> WritableAt(c, root, va);
  }

  /** copyin of the range that copyout has written returns the bytes written, and allocates nothing. */
  method OutAndIn(k: Kernel, root: nat, va: nat, src: seq<nat>, sz: nat) returns (ok: bool, back: seq<nat>)
    requires k.Valid() && ProcTable(k.book, root, sz)
    modifies k
    ensures k.Valid() && ProcTable(k.book, root, sz)
    ensures ok ==> back == src && Wrote(old(k.mem), old(k.book), k.mem, k.book, root, va, src)
  {
    ghost var m0, b0 := k.mem, k.book;
    back := [];
    ghost var done;
    ok, done := CopyOut(k, root, va, src, sz);
    if ok {
      assert src[..done] == src;
      ReadBack(m0, b0, k.mem, k.book, root, va, src, sz);
      ok, back := CopyIn(k, root, va, |src|, sz);
      assert ok;
    }
  }
}
