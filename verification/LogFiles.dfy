/** The log files as lists of frames, and positions in them as indices into one command log. */
module LogFiles {
  import opened Seqs
  import opened Wire
  import opened FrameReader
  import opened Aof

  /** The frames of each log file. A batch is written whole to one file, so no frame straddles two. */
  type Files = f: seq<seq<Frame>> | f != [] witness [[]]

  function OnDisk(files: Files): Dir {
    seq(|files|, i requires 0 <= i < |files| => Concat(files[i]))
  }

  function WriteFrames(files: Files, rotate: nat, batch: seq<Frame>): Files {
    var last := |files| - 1;
    if |Concat(files[last])| >= rotate then files + [batch] else files[last := files[last] + batch]
  }

  /** Writing frames is writing their bytes. */
  lemma WriteFramesOnDisk(files: Files, rotate: nat, batch: seq<Frame>)
    ensures OnDisk(WriteFrames(files, rotate, batch)) == Written(OnDisk(files), rotate, Concat(batch))
  {
    hide Concat;
    var last := |files| - 1;
    ConcatAppend(files[last], batch);
    var disk := OnDisk(files);
    if |Concat(files[last])| >= rotate {
      assert OnDisk(files + [batch]) == disk + [Concat(batch)];
    } else {
      assert OnDisk(files[last := files[last] + batch]) == disk[last := disk[last] + Concat(batch)];
    }
  }

  /** A position at which a reader starts on a frame. */
  predicate Boundary(files: Files, p: Pos) {
    ValidPos(OnDisk(files), p) && Into(files[p.file], p.off) == 0
  }

  /** How many frames of the whole log lie before a position. */
  function Index(files: Files, p: Pos): nat
    requires Boundary(files, p)
  {
    |Concat(files[..p.file])| + Whole(files[p.file], p.off)
  }

  lemma IndexSuffix(files: Files, p: Pos)
    requires Boundary(files, p)
    ensures Index(files, p) <= |Concat(files)|
    ensures Concat(files)[Index(files, p)..] ==
            files[p.file][Whole(files[p.file], p.off)..] + Concat(files[p.file + 1..])
  {
    hide Whole, Into;
    var a, mid, b := files[..p.file], files[p.file], files[p.file + 1..];
    var w := Whole(mid, p.off);
    assert files == a + ([mid] + b);
    ConcatAppend(a, [mid] + b);
    ConcatAppend([mid], b);
    ConcatOne(mid);
    assert Concat(files) == Concat(a) + (mid + Concat(b));
    assert (mid + Concat(b))[w..] == mid[w..] + Concat(b);
  }

  lemma WriteFramesKeeps(files: Files, rotate: nat, batch: seq<Frame>, p: Pos)
    requires Boundary(files, p)
    ensures var files' := WriteFrames(files, rotate, batch);
            Boundary(files', p) && Index(files', p) == Index(files, p)
  {
    var files' := WriteFrames(files, rotate, batch);
    assert files'[..p.file] == files[..p.file];
    ConcatAppend(files[p.file], batch);
    WholeAppend(files[p.file], batch, p.off);
  }

  lemma {:induction false} WholeAppend(fs: seq<Frame>, more: seq<Frame>, m: nat)
    requires m <= |Concat(fs)|
    ensures Into(fs, m) == 0 ==> Into(fs + more, m) == 0 && Whole(fs + more, m) == Whole(fs, m)
    decreases |fs|
  {
    if fs != [] && m >= |fs[0]| {
      assert (fs + more)[1..] == fs[1..] + more;
      WholeAppend(fs[1..], more, m - |fs[0]|);
    }
  }

  lemma WriteFramesConcat(files: Files, rotate: nat, batch: seq<Frame>)
    ensures Concat(WriteFrames(files, rotate, batch)) == Concat(files) + batch
  {
    var last := |files| - 1;
    if |Concat(files[last])| >= rotate {
      ConcatAppend(files, [batch]);
      ConcatOne(batch);
    } else {
      var a, z := files[..last], files[last];
      assert files == a + [z] && files[last := z + batch] == a + [z + batch];
      ConcatAppend(a, [z]);
      ConcatAppend(a, [z + batch]);
      ConcatOne(z);
      ConcatOne(z + batch);
    }
  }

  function CurPos(files: Files): Pos {
    Cur(OnDisk(files))
  }

  lemma CurIndex(files: Files)
    ensures Boundary(files, CurPos(files)) && Index(files, CurPos(files)) == |Concat(files)|
  {
    var last := |files| - 1;
    IntoEnd(files[last]);
    assert files == files[..last] + [files[last]];
    ConcatAppend(files[..last], [files[last]]);
    ConcatOne(files[last]);
  }

  lemma ReopenKeeps(files: Files, p: Pos)
    requires Boundary(files, p)
    ensures Boundary(files + [[]], p) && Index(files + [[]], p) == Index(files, p)
    ensures Concat(files + [[]]) == Concat(files)
  {
    assert (files + [[]])[..p.file] == files[..p.file];
    ConcatAppend(files, [[]]);
    ConcatOne<Frame>([]);
  }

  /** Loading a file from a boundary, also one that ends in a torn frame. */
  lemma LoadFrom(fs: seq<Frame>, t: bytes, off: nat)
    requires off <= |Concat(fs)| && Into(fs, off) == 0 && IsTorn(t) && TailSafe(fs[Whole(fs, off)..], t)
    ensures var r := Load(Concat(fs) + t, off);
            r.out == fs[Whole(fs, off)..] && !r.fault
  {
    hide Load, TailSafe, IsTorn, Into, Whole, Concat;
    WholeSize(fs, off);
    TornLoad(fs[Whole(fs, off)..], t);
    LoadSuffix(Concat(fs), t, off);
  }

  lemma LoadSuffix(s: bytes, t: bytes, off: nat)
    requires off <= |s|
    ensures Load(s + t, off) == Load(s[off..] + t, 0)
  {
    hide Run, Chunks;
    assert (s + t)[off..] == s[off..] + t == (s[off..] + t)[0..];
  }

  lemma NextFile(files: Files, i: nat)
    requires i < |files|
    ensures Boundary(files, Pos(i, 0)) && Index(files, Pos(i, 0)) <= |Concat(files)|
    ensures Concat(files)[Index(files, Pos(i, 0))..] == Concat(files[i..])
  {
    IndexSuffix(files, Pos(i, 0));
    assert Whole(files[i], 0) == 0 && files[i][0..] == files[i];
    assert files[i..][1..] == files[i + 1..];
  }
}
