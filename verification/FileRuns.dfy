/** Any series of calls on files, from mkfs on. */
module FileRuns {
  import opened Params
  import opened DiskBytes
  import opened FileBlocks
  import opened FileContents
  import opened FileSystem
  import opened FileIO

  datatype Call =
    | Map(bn: nat)
    | Read(off: nat, n: nat, room: nat)
    | Write(off: nat, n: nat, src: seq<Byte>)
    | Truncate
    | Put(last: bool)
    | Relink(nlink: nat)  // ip->nlink changed, and iupdate

  /** No operation is running. */
  ghost predicate AtRest(fs: Fs)
    reads fs
  {
    fs.Valid() && Settled(fs.use) && Dense(fs.disk, fs.ino)
  }

  /** The bitmap is right about block b. */
  ghost predicate Exact(l: Layout, disk: Disk, ino: map<nat, Inode>, b: nat) {
    Shape(l, disk) && b < l.size && (Used(l, disk, b) <==> b < l.nmeta || OwnedOnce(disk, ino, b))
  }

  lemma TruncatedDense(l: Layout, disk: Disk, ino: map<nat, Inode>, use: map<nat, Use>, e: Disk, now: map<nat, Inode>,
                       i: nat)
    requires Inv(l, disk, ino, use) && Dense(disk, ino) && OnlyBitmap(l, disk, e) && i in ino
    requires i in now && now == ino[i := now[i]] && now[i].size == 0 && |now[i].addrs| == NDIRECT + 1
    ensures Dense(e, now)
  {
    forall j | j in now
      ensures NoHoles(e, now[j])
    {
      if j != i {
        assert FileOk(disk, use, j, ino[j]) && NoHoles(disk, ino[j]);
        var t := ino[j].addrs[NDIRECT];
        assert t != 0 ==> BlockOk(l, disk, use, t);
        assert forall n: nat :: n < MAXFILE ==> Slot(e, ino[j], n) == Slot(disk, ino[j], n);
      }
    }
  }

  lemma MappedDense(l: Layout, disk: Disk, ino: map<nat, Inode>, use: map<nat, Use>, e: Disk, now: map<nat, Inode>,
                    use': map<nat, Use>, i: nat, n: nat, b: nat)
    requires Inv(l, disk, ino, use) && Inv(l, e, now, use') && Located(disk, ino, use, e, now, use', i, n, b)
    requires Dense(disk, ino)
    ensures Dense(e, now)
  {
    LocatedBytes(l, disk, ino, use, e, now, use', i, n, b, 0);
    forall j | j in now
      ensures NoHoles(e, now[j])
    {
      assert SameBlocks(disk, ino[j], e, now[j]) && NoHoles(disk, ino[j]);
      assert forall k: nat {:trigger Slot(e, now[j], k)} :: k < MAXFILE && k * BSIZE < ino[j].size ==>
          Slot(disk, ino[j], k) != 0;
    }
  }

  // ---------- one call ----------

  method Truncated(fs: Fs, i: nat)
    requires AtRest(fs) && i in fs.ino && |fs.ino[i].addrs| == NDIRECT + 1
    modifies fs
    ensures AtRest(fs)
  {
    ghost var d0, i0, u0 := fs.disk, fs.ino, fs.use;
    fs.ITrunc(i);
    TruncatedDense(fs.l, d0, i0, u0, fs.disk, fs.ino, i);
  }

  method Released(fs: Fs, i: nat, last: bool)
    requires AtRest(fs) && i in fs.ino && |fs.ino[i].addrs| == NDIRECT + 1
    modifies fs
    ensures AtRest(fs)
  {
    ghost var d0, i0, u0 := fs.disk, fs.ino, fs.use;
    fs.IPut(i, last);
    if last && i0[i].nlink == 0 {
      TruncatedDense(fs.l, d0, i0, u0, fs.disk, fs.ino, i);
    }
  }

  method Mapped(fs: Fs, i: nat, bn: nat)
    requires AtRest(fs) && i in fs.ino && |fs.ino[i].addrs| == NDIRECT + 1 && bn < MAXFILE
    modifies fs
    ensures AtRest(fs)
  {
    ghost var d0, i0, u0 := fs.disk, fs.ino, fs.use;
    var b;
    ghost var took;
    b, took := fs.BMap(i, bn);
    MappedDense(fs.l, d0, i0, u0, fs.disk, fs.ino, fs.use, i, bn, b);
  }

  method Relinked(fs: Fs, i: nat, nlink: nat)
    requires AtRest(fs) && i in fs.ino
    modifies fs
    ensures AtRest(fs)
  {
    FieldsAreFree(fs.l, fs.disk, fs.ino, fs.use, i, fs.ino[i].(nlink := nlink));
    ghost var i0 := fs.ino;
    fs.ino := fs.ino[i := fs.ino[i].(nlink := nlink)];
    fs.IUpdate(i);
    forall j | j in fs.ino
      ensures NoHoles(fs.disk, fs.ino[j])
    {
      assert NoHoles(fs.disk, i0[j]);
      assert forall n: nat :: n < MAXFILE ==> Slot(fs.disk, fs.ino[j], n) == Slot(fs.disk, i0[j], n);
    }
  }

  /** A call on file i, if there is an inode i and the call does not panic. */
  method Do(fs: Fs, i: nat, c: Call)
    requires AtRest(fs)
    modifies fs
    ensures AtRest(fs)
  {
    if i !in fs.ino {
      return;
    }
    assert FileOk(fs.disk, fs.use, i, fs.ino[i]);
    match c {
      case Map(bn) =>
        if bn < MAXFILE {
          Mapped(fs, i, bn);
        }
      case Read(off, n, room) =>
        assert NoHoles(fs.disk, fs.ino[i]);
        var r, dst := ReadI(fs, i, off, n, room);
      case Write(off, n, src) =>
        var r;
        ghost var a, b;
        r, a, b := WriteI(fs, i, off, n, src);
      case Truncate => Truncated(fs, i);
      case Put(last) => Released(fs, i, last);
      case Relink(nlink) => Relinked(fs, i, nlink);
    }
  }

  // ---------- any series of them ----------

  /** After mkfs and any calls, a bitmap bit is set exactly when its block is metadata or in exactly one place of
      exactly one inode. */
  method AnyRun(layout: Layout, root: Block, calls: seq<(nat, Call)>) returns (fs: Fs)
    requires LayoutOk(layout) && layout.nmeta < layout.size && layout.nmeta + 1 < BPB && layout.ninodes > ROOTINO
    ensures fresh(fs) && AtRest(fs) && fs.l == layout
    ensures forall b: nat :: b < layout.size ==> Exact(layout, fs.disk, fs.ino, b)
  {
    fs := new Fs(layout, root);
    for k := 0 to |calls|
      invariant fresh(fs) && AtRest(fs) && fs.l == layout
    {
      Do(fs, calls[k].0, calls[k].1);
    }
    forall b: nat | b < layout.size
      ensures Exact(layout, fs.disk, fs.ino, b)
    {
      ExactOwner(layout, fs.disk, fs.ino, fs.use, b);
    }
  }
}
